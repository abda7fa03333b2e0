/** Inline data in mlx4 send descriptors: the message is cut into segments, each with a
    4-byte header, that never cross a 64-byte line. */
module InlineData {

  const LINE: nat := 64
  const HDR: nat := 4

  /** A byte of the descriptor: of the data, or one of the four of a segment's byte count. */
  datatype Cell = Data(b: nat) | Header(len: nat, part: nat)

  function Cells(msg: seq<nat>): (cs: seq<Cell>)
    ensures |cs| == |msg| && forall i :: 0 <= i < |msg| ==> cs[i] == Data(msg[i])
  {
    seq(|msg|, i requires 0 <= i < |msg| => Data(msg[i]))
  }

  function HeaderCells(len: nat): (cs: seq<Cell>)
    ensures |cs| == HDR
  {
    [Header(len, 0), Header(len, 1), Header(len, 2), Header(len, 3)]
  }

  /** Data bytes that fit the segment whose header starts at an offset. */
  function Room(at: nat): int { LINE - at % LINE - HDR }

  /** Where a segment may start: descriptors are built from 16-byte units. */
  predicate Start(at: nat) { at % LINE <= 48 }

  function Segment(data: seq<nat>): (cs: seq<Cell>)
    ensures |cs| == HDR + |data|
  {
    HeaderCells(|data|) + Cells(data)
  }

  /** The segments of a message, from an offset on. */
  function Image(at: nat, msg: seq<nat>): seq<Cell>
    requires Start(at) || msg == []
    decreases |msg|
  {
    if msg == [] then []
    else if |msg| <= Room(at) then Segment(msg)
    else Segment(msg[..Room(at)]) + Image(at + HDR + Room(at), msg[Room(at)..])
  }

  /** The length of the first segment. */
  function First(at: nat, msg: seq<nat>): nat
    requires Start(at)
  {
    if |msg| <= Room(at) then |msg| else Room(at)
  }

  lemma ImageFirst(at: nat, msg: seq<nat>)
    requires Start(at) && msg != []
    ensures var n := First(at, msg);
            && n > 0 && (n < |msg| ==> (at + HDR + n) % LINE == 0)
            && Image(at, msg) == Segment(msg[..n]) + Image(at + HDR + n, msg[n..])
  {
    var n := First(at, msg);
    if n == |msg| { assert msg[..n] == msg && msg[n..] == []; }
  }

  function SegCount(at: nat, len: nat): nat {
    if len == 0 then 0 else (len + at % LINE + 59) / 60
  }

  function ImageLen(at: nat, len: nat): nat {
    len + HDR * SegCount(at, len)
  }

  lemma CountNext(at: nat, len: nat)
    requires Start(at) && len > Room(at)
    ensures SegCount(at, len) == 1 + SegCount(at + HDR + Room(at), len - Room(at))
  {
  }

  lemma {:induction false} ImageLength(at: nat, msg: seq<nat>)
    requires Start(at) || msg == []
    ensures |Image(at, msg)| == ImageLen(at, |msg|)
    decreases |msg|
  {
    if |msg| > Room(at) && msg != [] {
      var n := Room(at);
      ImageLength(at + HDR + n, msg[n..]);
      CountNext(at, |msg|);
    }
  }

  /** What the NIC gathers: the data of one segment after the other. */
  function Gather(cs: seq<Cell>): seq<nat>
    decreases |cs|
  {
    if |cs| < HDR || !cs[0].Header? || HDR + cs[0].len > |cs| then []
    else DataOf(cs[HDR..HDR + cs[0].len]) + Gather(cs[HDR + cs[0].len..])
  }

  function DataOf(cs: seq<Cell>): (d: seq<nat>)
    ensures |d| == |cs|
  {
    seq(|cs|, i requires 0 <= i < |cs| => if cs[i].Data? then cs[i].b else 0)
  }

  lemma GatherSegment(data: seq<nat>, rest: seq<Cell>)
    ensures Gather(Segment(data) + rest) == data + Gather(rest)
  {
    var cs := Segment(data) + rest;
    assert cs[HDR..HDR + |data|] == Cells(data);
    assert cs[HDR + |data|..] == rest;
    assert DataOf(Cells(data)) == data;
  }

  /** The segments' payloads are the message. */
  lemma {:induction false} GatherImage(at: nat, msg: seq<nat>)
    requires Start(at) || msg == []
    ensures Gather(Image(at, msg)) == msg
    decreases |msg|
  {
    if msg != [] {
      ImageFirst(at, msg);
      var n := First(at, msg);
      GatherImage(at + HDR + n, msg[n..]);
      hide Image, Gather, Segment;
      GatherSegment(msg[..n], Image(at + HDR + n, msg[n..]));
      assert msg[..n] + msg[n..] == msg;
    }
  }

  /** Every cell of a segment lies in the line of its header. */
  ghost predicate InLines(at: nat, cs: seq<Cell>)
    decreases |cs|
  {
    cs != [] ==>
      && |cs| >= HDR && cs[0].Header? && HDR + cs[0].len <= |cs|
      && at / LINE == (at + HDR + cs[0].len - 1) / LINE
      && InLines(at + HDR + cs[0].len, cs[HDR + cs[0].len..])
  }

  lemma {:induction false} ImageInLines(at: nat, msg: seq<nat>)
    requires Start(at) || msg == []
    ensures InLines(at, Image(at, msg))
    decreases |msg|
  {
    if msg != [] {
      ImageFirst(at, msg);
      var n, cs := First(at, msg), Image(at, msg);
      ImageInLines(at + HDR + n, msg[n..]);
      assert cs[HDR + n..] == Image(at + HDR + n, msg[n..]);
    }
  }

  /** A message that fills its first segment. */
  lemma ImageFull(at: nat, msg: seq<nat>)
    requires Start(at) && |msg| >= Room(at)
    ensures Start(at + HDR + Room(at)) && (at + HDR + Room(at)) % LINE == 0
    ensures Image(at, msg) == Segment(msg[..Room(at)]) + Image(at + HDR + Room(at), msg[Room(at)..])
  {
    ImageFirst(at, msg);
  }

  lemma FullFirst(at: nat, a: seq<nat>)
    requires Start(at) && a != [] && (at + |Image(at, a)|) % LINE == 0
    ensures |a| >= Room(at)
  {
  }

  lemma AppendFirst(at: nat, a: seq<nat>, b: seq<nat>, right: seq<Cell>)
    requires Start(at) && |a| >= Room(at) && Start(at + HDR + Room(at))
    requires var n := Room(at); Image(at + HDR + n, a[n..] + b) == Image(at + HDR + n, a[n..]) + right
    ensures Image(at, a + b) == Image(at, a) + right
  {
    hide Image, Segment;
    var n := Room(at);
    ImageFull(at, a);
    ImageFull(at, a + b);
    assert (a + b)[..n] == a[..n] && (a + b)[n..] == a[n..] + b;
    var seg, left := Segment(a[..n]), Image(at + HDR + n, a[n..]);
    assert seg + (left + right) == (seg + left) + right;
  }

  /** When the first part ends with a full segment, the rest starts a new one. */
  lemma {:induction false} ImageAppend(at: nat, a: seq<nat>, b: seq<nat>)
    requires Start(at) && (a == [] || (at + |Image(at, a)|) % LINE == 0)
    ensures Start(at + |Image(at, a)|)
    ensures Image(at, a + b) == Image(at, a) + Image(at + |Image(at, a)|, b)
    decreases |a|
  {
    if a == [] {
      assert a + b == b && at + |Image(at, a)| == at;
    } else {
      FullFirst(at, a);
      ImageFull(at, a);
      var n := Room(at);
      var next := at + HDR + n;
      assert next + |Image(next, a[n..])| == at + |Image(at, a)|;
      ImageAppend(next, a[n..], b);
      AppendFirst(at, a, b, Image(at + |Image(at, a)|, b));
    }
  }

  function Write(buf: seq<Cell>, at: nat, cs: seq<Cell>): (r: seq<Cell>)
    requires cs == [] || at + |cs| <= |buf|
    ensures |r| == |buf|
    ensures forall i :: 0 <= i < |buf| ==> r[i] == (if at <= i < at + |cs| then cs[i - at] else buf[i])
  {
    seq(|buf|, i requires 0 <= i < |buf| => if at <= i < at + |cs| then cs[i - at] else buf[i])
  }

  function Concat(sges: seq<seq<nat>>): seq<nat> {
    if sges == [] then [] else Concat(sges[..|sges| - 1]) + sges[|sges| - 1]
  }

  // How much fits a descriptor.

  const CTRL: nat := 16
  const MAX_WQE: nat := 1008

  /** What precedes the data: the control segment, and an address segment by QP type. */
  datatype QpType = UD | Connected | Other

  function Prefix(t: QpType): nat {
    match t case UD => CTRL + 48 case Connected => CTRL + 16 case Other => CTRL
  }

  /** mlx4_set_sq_sizes, for a descriptor stride of 64 bytes times a power of two. */
  function MaxInlineData(stride: nat, t: QpType): int {
    var size := (if stride < MAX_WQE then stride else MAX_WQE) - Prefix(t);
    size - HDR * ((size + LINE - 1) / LINE)
  }

  /** The bound is exact: a message fits the descriptor if and only if it is no longer. */
  lemma MaxInlineExact(stride: nat, t: QpType, len: nat)
    requires stride >= LINE && stride % LINE == 0 && 0 < len
    ensures var limit := if stride < MAX_WQE then stride else MAX_WQE;
            Prefix(t) + ImageLen(Prefix(t), len) <= limit <==> len <= MaxInlineData(stride, t)
  {
  }

  /** A send without an address segment starts earlier, and fits too. */
  lemma EarlierStartFits(stride: nat, t: QpType, len: nat)
    requires stride >= LINE && stride % LINE == 0 && len <= MaxInlineData(stride, t)
    ensures CTRL + ImageLen(CTRL, len) <= if stride < MAX_WQE then stride else MAX_WQE
  {
    if len > 0 { MaxInlineExact(stride, t, len); }
  }

  /** num_inline_segs */
  function NumInlineSegs(data: nat, t: QpType): nat {
    var d := data + (if t.UD? then (CTRL + 48) % LINE else (CTRL + 16) % LINE);
    (d + LINE - HDR - 1) / (LINE - HDR)
  }

  /** It is the number of segments written, for a non-empty message after the prefix it
      assumes; a shorter prefix needs no more. */
  lemma NumInlineSegsCounts(len: nat, t: QpType)
    ensures !t.Other? && len > 0 ==> NumInlineSegs(len, t) == SegCount(Prefix(t), len)
    ensures NumInlineSegs(len, t) >= SegCount(Prefix(t), len)
  {
  }

  // The encoders.

  predicate MemFits(size: nat, start: nat, img: nat, tail: nat) {
    (img == 0 || start + img <= size) && (tail == 0 || start + img + HDR + tail <= size)
  }

  /** A buffer with finished segments from start on, and after them the data of a segment
      whose header is not written yet. */
  function Mem(before: seq<Cell>, start: nat, img: seq<Cell>, tail: seq<nat>): (r: seq<Cell>)
    requires MemFits(|before|, start, |img|, |tail|)
    ensures |r| == |before|
  {
    Write(Write(before, start, img), start + |img| + HDR, Cells(tail))
  }

  lemma MemExtend(before: seq<Cell>, start: nat, img: seq<Cell>, tail: seq<nat>, x: seq<nat>)
    requires MemFits(|before|, start, |img|, |tail|) && MemFits(|before|, start, |img|, |tail| + |x|)
    ensures Write(Mem(before, start, img, tail), start + |img| + HDR + |tail|, Cells(x)) ==
            Mem(before, start, img, tail + x)
  {
  }

  lemma MemClose(before: seq<Cell>, start: nat, img: seq<Cell>, tail: seq<nat>)
    requires MemFits(|before|, start, |img|, |tail|) && start + |img| + HDR + |tail| <= |before|
    ensures Write(Mem(before, start, img, tail), start + |img|, HeaderCells(|tail|)) ==
            Mem(before, start, img + Segment(tail), [])
    ensures Mem(before, start, img + Segment(tail), []) == Write(before, start, img + Segment(tail))
  {
  }

  lemma MemStart(before: seq<Cell>, start: nat)
    ensures Mem(before, start, [], []) == before
  {
  }

  /** `full` has gone into full segments, and `tail` is the data of the open one at segAt. */
  ghost predicate Cut(start: nat, full: seq<nat>, tail: seq<nat>, segAt: nat) {
    && Start(start) && Start(segAt) && |tail| < Room(segAt)
    && segAt == start + |Image(start, full)| && (full != [] ==> segAt % LINE == 0)
  }

  lemma ImageShort(at: nat, msg: seq<nat>)
    requires Start(at) && 0 < |msg| <= Room(at)
    ensures Image(at, msg) == Segment(msg)
  {
  }

  /** Data up to the end of the line closes the segment. */
  lemma CutClose(start: nat, full: seq<nat>, tail: seq<nat>, segAt: nat, x: seq<nat>)
    requires Cut(start, full, tail, segAt) && |x| == Room(segAt) - |tail|
    ensures Image(start, full + (tail + x)) == Image(start, full) + Segment(tail + x)
    ensures Cut(start, full + (tail + x), [], segAt + HDR + Room(segAt))
  {
    hide Image, Segment, Room, Start;
    LineEnd(segAt);
    ImageShort(segAt, tail + x);
    ImageAppend(start, full, tail + x);
  }

  lemma LineEnd(at: nat)
    requires Start(at)
    ensures Room(at) > 0
    ensures var next := at + HDR + Room(at); next % LINE == 0 && Start(next) && Room(next) > 0
  {
  }

  lemma CutImage(start: nat, full: seq<nat>, tail: seq<nat>, segAt: nat)
    requires Cut(start, full, tail, segAt)
    ensures tail != [] ==> Image(start, full + tail) == Image(start, full) + Segment(tail)
    ensures |Image(start, full + tail)| == ImageLen(start, |full| + |tail|)
    ensures |Image(start, full)| == ImageLen(start, |full|)
    ensures tail == [] ==> full + tail == full
  {
    if tail != [] { ImageShort(segAt, tail); }
    hide Image, Segment;
    ImageAppend(start, full, tail);
    ImageLength(start, full + tail);
    ImageLength(start, full);
  }

  /** Longer messages take more room. */
  lemma ImageLenGrows(at: nat, a: nat, b: nat)
    requires a <= b
    ensures ImageLen(at, a) <= ImageLen(at, b)
  {
  }

  lemma CloseBounds(size: nat, start: nat, full: seq<nat>, tail: seq<nat>, segAt: nat, x: seq<nat>, total: nat)
    requires Cut(start, full, tail, segAt) && |x| == Room(segAt) - |tail| && |full| + |tail| + |x| <= total
    requires start + ImageLen(start, total) <= size
    ensures start + |Image(start, full)| + HDR + |tail| + |x| <= size
    ensures SegCount(start, |full + (tail + x)|) == SegCount(start, |full|) + 1
  {
    CutClose(start, full, tail, segAt, x);
    ImageLength(start, full + (tail + x));
    ImageLength(start, full);
    ImageLenGrows(start, |full| + |tail| + |x|, total);
    hide Image, SegCount;
  }

  lemma ExtendBounds(size: nat, start: nat, full: seq<nat>, tail: seq<nat>, segAt: nat, x: seq<nat>)
    requires Cut(start, full, tail, segAt) && |x| < Room(segAt) - |tail|
    requires start + ImageLen(start, |full| + |tail| + |x|) <= size
    ensures Cut(start, full, tail + x, segAt) && MemFits(size, start, |Image(start, full)|, |tail| + |x|)
  {
    CutImage(start, full, tail + x, segAt);
    ImageLenGrows(start, |full|, |full| + |tail| + |x|);
    hide Image, SegCount;
  }

  lemma {:induction false} ConcatNext(sges: seq<seq<nat>>, k: nat)
    requires k < |sges|
    ensures Concat(sges[..k + 1]) == Concat(sges[..k]) + sges[k]
  {
    assert sges[..k + 1][..k] == sges[..k];
  }

  lemma {:induction false} ConcatGrows(sges: seq<seq<nat>>, k: nat)
    requires k <= |sges|
    ensures |Concat(sges[..k])| <= |Concat(sges)|
    decreases |sges| - k
  {
    if k == |sges| {
      assert sges[..k] == sges;
    } else {
      ConcatGrows(sges, k + 1);
      ConcatNext(sges, k);
    }
  }

  lemma NextPart(full: seq<nat>, tail: seq<nat>, m: seq<nat>, sge: seq<nat>, k: nat, l: nat)
    requires k <= l <= |sge| && full + tail == m + sge[..k]
    ensures full + (tail + sge[k..l]) == m + sge[..l] == full + (tail + sge[k..l]) + []
    ensures l == |sge| ==> sge[k..] == sge[k..l] && sge[..l] == sge
  {
    assert sge[..k] + sge[k..l] == sge[..l];
    assert full + (tail + sge[k..l]) == (full + tail) + sge[k..l];
    assert (m + sge[..k]) + sge[k..l] == m + (sge[..k] + sge[k..l]);
  }

  method Copy(buf: array<Cell>, at: nat, cs: seq<Cell>)
    requires cs == [] || at + |cs| <= buf.Length
    modifies buf
    ensures buf[..] == Write(old(buf[..]), at, cs)
  {
    for k := 0 to |cs|
      invariant forall i :: 0 <= i < buf.Length ==> buf[i] == (if at <= i < at + k then cs[i - at] else old(buf[i]))
    {
      buf[at + k] := cs[k];
    }
  }

  /** The part of set_data_inl_seg that copies one scatter-gather entry. */
  method CopySge(buf: array<Cell>, ghost before: seq<Cell>, ghost start: nat, ghost full: seq<nat>,
                 ghost tail: seq<nat>,
                 sge: seq<nat>, segAt: nat, segLen: nat, numSeg: nat)
    returns (segAt': nat, segLen': nat, numSeg': nat, ghost full': seq<nat>, ghost tail': seq<nat>)
    requires |before| == buf.Length && Cut(start, full, tail, segAt) && segLen == |tail|
    requires start + ImageLen(start, |full| + |tail| + |sge|) <= buf.Length
    requires MemFits(|before|, start, |Image(start, full)|, |tail|)
    requires buf[..] == Mem(before, start, Image(start, full), tail) && numSeg == SegCount(start, |full|)
    modifies buf
    ensures Cut(start, full', tail', segAt') && segLen' == |tail'| && full' + tail' == full + tail + sge
    ensures MemFits(|before|, start, |Image(start, full')|, |tail'|)
    ensures buf[..] == Mem(before, start, Image(start, full'), tail') && numSeg' == SegCount(start, |full'|)
  {
    hide Image, Mem, Segment, SegCount, ImageLen, Write;
    segAt', segLen', numSeg', full', tail' := segAt, segLen, numSeg, full, tail;
    var addr := 0;
    while |sge| - addr >= Room(segAt') - segLen'
      invariant addr <= |sge| && full' + tail' == full + tail + sge[..addr]
      invariant Cut(start, full', tail', segAt') && segLen' == |tail'|
      invariant MemFits(|before|, start, |Image(start, full')|, |tail'|)
      invariant buf[..] == Mem(before, start, Image(start, full'), tail') && numSeg' == SegCount(start, |full'|)
      decreases |sge| - addr
    {
      var toCopy := Room(segAt') - segLen';
      ghost var x := sge[addr..addr + toCopy];
      ghost var img := Image(start, full');
      CutClose(start, full', tail', segAt', x);
      CloseBounds(buf.Length, start, full', tail', segAt', x, |full| + |tail| + |sge|);
      MemExtend(before, start, img, tail', x);
      MemClose(before, start, img, tail' + x);
      Copy(buf, segAt' + HDR + segLen', Cells(sge[addr..addr + toCopy]));
      Copy(buf, segAt', HeaderCells(segLen' + toCopy));
      NextPart(full', tail', full + tail, sge, addr, addr + toCopy);
      full', tail' := full' + (tail' + x), [];
      addr, segAt', segLen', numSeg' := addr + toCopy, segAt' + HDR + Room(segAt'), 0, numSeg' + 1;
    }
    ghost var x := sge[addr..];
    NextPart(full', tail', full + tail, sge, addr, |sge|);
    ExtendBounds(buf.Length, start, full', tail', segAt', x);
    MemExtend(before, start, Image(start, full'), tail', x);
    Copy(buf, segAt' + HDR + segLen', Cells(sge[addr..]));
    segLen', tail' := segLen' + (|sge| - addr), tail' + x;
  }

  /** set_data_inl_seg: the image of the whole message, or an error if it is too long. The
      result is the number of 16-byte units. */
  method Encode(buf: array<Cell>, start: nat, sges: seq<seq<nat>>, maxInline: nat) returns (ok: bool, units: nat)
    requires Start(start) && start + ImageLen(start, maxInline) <= buf.Length
    modifies buf
    ensures ok <==> |Concat(sges)| <= maxInline
    ensures ok ==> |Image(start, Concat(sges))| == ImageLen(start, |Concat(sges)|)
                   && start + |Image(start, Concat(sges))| <= buf.Length
                   && buf[..] == Write(old(buf[..]), start, Image(start, Concat(sges)))
                   && units == (|Image(start, Concat(sges))| + 15) / 16
  {
    ghost var before := buf[..];
    ghost var full: seq<nat>, tail: seq<nat> := [], [];
    var segAt, segLen, numSeg, inl := start, 0, 0, 0;
    MemStart(before, start);
    EncodeStart(start);
    assert sges[..0] == [];
    hide Image, Mem, Segment, SegCount, ImageLen, Write, Concat, Room;
    for i := 0 to |sges|
      invariant inl == |full + tail| && full + tail == Concat(sges[..i]) && inl <= maxInline
      invariant Cut(start, full, tail, segAt) && segLen == |tail|
      invariant MemFits(|before|, start, |Image(start, full)|, |tail|)
      invariant buf[..] == Mem(before, start, Image(start, full), tail) && numSeg == SegCount(start, |full|)
    {
      inl := inl + |sges[i]|;
      ConcatNext(sges, i);
      if inl > maxInline {
        ConcatGrows(sges, i + 1);
        return false, 0;
      }
      ImageLenGrows(start, inl, maxInline);
      segAt, segLen, numSeg, full, tail := CopySge(buf, before, start, full, tail, sges[i], segAt, segLen, numSeg);
    }
    assert sges[..|sges|] == sges;
    ImageLenGrows(start, inl, maxInline);
    EncodeEnd(before, start, full, tail, segAt);
    if segLen > 0 {
      numSeg := numSeg + 1;
      Copy(buf, segAt, HeaderCells(segLen));
    }
    units := (inl + numSeg * HDR + 15) / 16;
    return true, units;
  }

  lemma EncodeStart(start: nat)
    requires Start(start)
    ensures Cut(start, [], [], start) && |Image(start, [])| == 0 && Image(start, []) == [] && SegCount(start, 0) == 0
    ensures Concat([]) == []
  {
  }

  lemma EncodeEnd(before: seq<Cell>, start: nat, full: seq<nat>, tail: seq<nat>, segAt: nat)
    requires Cut(start, full, tail, segAt) && MemFits(|before|, start, |Image(start, full)|, |tail|)
    requires start + ImageLen(start, |full| + |tail|) <= |before|
    ensures |Image(start, full + tail)| == ImageLen(start, |full| + |tail|)
    ensures ImageLen(start, |full| + |tail|) ==
            |full| + |tail| + (SegCount(start, |full|) + (if tail == [] then 0 else 1)) * HDR
    ensures tail == [] ==>
      Mem(before, start, Image(start, full), tail) == Write(before, start, Image(start, full + tail))
    ensures tail != [] ==> segAt + HDR <= |before|
    ensures tail != [] ==> Write(Mem(before, start, Image(start, full), tail), segAt, HeaderCells(|tail|))
                           == Write(before, start, Image(start, full + tail))
  {
    CutImage(start, full, tail, segAt);
    hide Image, SegCount, Segment;
    if tail != [] {
      MemClose(before, start, Image(start, full), tail);
    } else {
      assert full + tail == full;
    }
  }

  /** Header and data may be written in either order. */
  lemma WriteSegment(now: seq<Cell>, seg: nat, data: seq<nat>)
    requires seg + HDR + |data| <= |now|
    ensures Write(Write(now, seg, HeaderCells(|data|)), seg + HDR, Cells(data)) == Write(now, seg, Segment(data))
    ensures Write(Write(now, seg + HDR, Cells(data)), seg, HeaderCells(|data|)) == Write(now, seg, Segment(data))
  {
  }

  lemma WriteNext(before: seq<Cell>, start: nat, a: seq<Cell>, b: seq<Cell>)
    requires start + |a| + |b| <= |before|
    ensures Write(Write(before, start, a), start + |a|, b) == Write(before, start, a + b)
  {
  }

  /** One full segment of the rest of the message. */
  lemma FastStep(seg: nat, msg: seq<nat>, addr: nat, written: seq<Cell>)
    requires seg % LINE == 0 && addr + (LINE - HDR) < |msg|
    ensures Start(seg) && (seg + LINE) % LINE == 0 && Start(seg + LINE)
    ensures var data := msg[addr..addr + (LINE - HDR)];
            written + Image(seg, msg[addr..])
            == (written + Segment(data)) + Image(seg + LINE, msg[addr + (LINE - HDR)..])
  {
    var n, rest := LINE - HDR, msg[addr..];
    ImageFull(seg, rest);
    assert rest[..n] == msg[addr..addr + n] && rest[n..] == msg[addr + n..];
  }

  /** set_data_inl_seg_fast, for one entry behind a 16-byte control segment: the same bytes
      as the general encoder writes, except that an empty message still gets a header. */
  method EncodeFast(buf: array<Cell>, start: nat, msg: seq<nat>) returns (units: nat)
    requires start % LINE == CTRL && start + (if msg == [] then HDR else ImageLen(start, |msg|)) <= buf.Length
    modifies buf
    ensures |Image(start, msg)| == ImageLen(start, |msg|)
    ensures msg != [] ==> buf[..] == Write(old(buf[..]), start, Image(start, msg))
                          && units == (|Image(start, msg)| + 15) / 16
    ensures msg == [] ==> buf[..] == Write(old(buf[..]), start, HeaderCells(0)) && units == 1
    ensures units == (|Image(start, msg)| + 15) / 16 <==> msg != []
  {
    ghost var before := buf[..];
    assert Start(start);
    ImageLength(start, msg);
    hide Image, Write, Room, Start;
    var length := |msg|;
    if length <= LINE - HDR - CTRL {
      WriteSegment(before, start, msg);
      if length > 0 { FirstShort(start, msg); }
      Copy(buf, start, HeaderCells(length));
      Copy(buf, start + HDR, Cells(msg));
      if length == 0 { WriteNothing(buf[..], start + HDR); }
      return (length + HDR + 15) / 16;
    }
    var addr := LINE - HDR - CTRL;
    FirstSegment(start, msg);
    WriteSegment(before, start, msg[..addr]);
    Copy(buf, start, HeaderCells(addr));
    Copy(buf, start + HDR, Cells(msg[..addr]));
    units := FastRest(buf, before, start, msg);
  }

  lemma WriteNothing(now: seq<Cell>, at: nat)
    ensures Write(now, at, []) == now
  {
  }

  lemma FirstSegment(start: nat, msg: seq<nat>)
    requires start % LINE == CTRL && |msg| > LINE - HDR - CTRL
    ensures Start(start) && (start + LINE - CTRL) % LINE == 0 && Start(start + LINE - CTRL)
    ensures var n := LINE - HDR - CTRL;
            Image(start, msg) == Segment(msg[..n]) + Image(start + LINE - CTRL, msg[n..])
  {
    ImageFull(start, msg);
  }

  lemma FirstShort(start: nat, msg: seq<nat>)
    requires start % LINE == CTRL && 0 < |msg| <= LINE - HDR - CTRL
    ensures Start(start) && Image(start, msg) == Segment(msg)
  {
  }

  lemma LastSegment(seg: nat, data: seq<nat>)
    requires seg % LINE == 0 && 0 < |data| <= LINE - HDR
    ensures Image(seg, data) == Segment(data)
  {
  }

  /** The data of a segment, then its header, right after what is written. */
  method PutSegment(buf: array<Cell>, ghost before: seq<Cell>, ghost start: nat, ghost written: seq<Cell>,
                    seg: nat, data: seq<nat>)
    requires |before| == buf.Length && seg == start + |written| && seg + HDR + |data| <= buf.Length
    requires buf[..] == Write(before, start, written)
    modifies buf
    ensures buf[..] == Write(before, start, written + Segment(data))
  {
    WriteSegment(buf[..], seg, data);
    WriteNext(before, start, written, Segment(data));
    hide Write, Segment;
    Copy(buf, seg + HDR, Cells(data));
    Copy(buf, seg, HeaderCells(|data|));
  }

  /** What follows the first, full segment. */
  method FastRest(buf: array<Cell>, ghost before: seq<Cell>, start: nat, msg: seq<nat>) returns (units: nat)
    requires start % LINE == CTRL && |msg| > LINE - HDR - CTRL && |before| == buf.Length
    requires |Image(start, msg)| == ImageLen(start, |msg|) && start + |Image(start, msg)| <= buf.Length
    requires buf[..] == Write(before, start, Segment(msg[..LINE - HDR - CTRL]))
    modifies buf
    ensures buf[..] == Write(before, start, Image(start, msg)) && units == (|Image(start, msg)| + 15) / 16
  {
    hide Image, Write, Segment, ImageLen, Room, Start;
    FirstSegment(start, msg);
    var addr: nat, seg: nat := LINE - HDR - CTRL, start + LINE - CTRL;
    ghost var img, written := Image(start, msg), Segment(msg[..addr]);
    while |msg| - addr > LINE - HDR
      invariant 0 < addr < |msg| && seg % LINE == 0 && Start(seg)
      invariant seg == start + |written| && img == written + Image(seg, msg[addr..])
      invariant buf[..] == Write(before, start, written)
    {
      FastStep(seg, msg, addr, written);
      PutSegment(buf, before, start, written, seg, msg[addr..addr + (LINE - HDR)]);
      written := written + Segment(msg[addr..addr + (LINE - HDR)]);
      addr, seg := addr + (LINE - HDR), seg + LINE;
    }
    LastSegment(seg, msg[addr..]);
    PutSegment(buf, before, start, written, seg, msg[addr..]);
    units := (seg + HDR + (|msg| - addr) - start + 15) / 16;
  }
}
