/** The socket ring of the video player: messages go into one buffer, whole pictures are copied out to another. */
module SocketRing {
  import opened Common
  import opened Seqs
  import opened BitReader
  import opened SeekIndex

  // ---- What the ring holds, on values

  /** Stream offset `c` lies just after a picture start code. */
  predicate CutAt(stream: seq<byte>, c: nat)
  {
    4 <= c <= |stream| && stream[c - 4] == 0 && stream[c - 3] == 0 && stream[c - 2] == 1 && stream[c - 1] == 0
  }

  /** The bytes written since the last wrap are the stream from offset `base` on. */
  ghost predicate Kept(b: seq<byte>, writePos: nat, stream: seq<byte>, base: nat)
  {
    writePos <= |b| && |stream| == base + writePos && b[..writePos] == stream[base..]
  }

  /** The start of the picture being received is at `begin` in the buffer and at `start` in the stream. After a wrap
      its first part lies between `begin` and `last`, out of reach of the writes. */
  ghost predicate Pending(b: seq<byte>, writePos: nat, begin: nat, last: nat, stream: seq<byte>, base: nat,
                          wrapped: bool, start: nat)
  {
    if wrapped then
      writePos <= begin <= last <= |b| && start <= base <= |stream| && b[begin..last] == stream[start..base]
    else
      begin <= writePos && start == base + begin
  }

  /** A message stored at `at`. */
  function Stored(b: seq<byte>, at: nat, msg: seq<byte>): seq<byte>
    requires at + |msg| <= |b|
  {
    b[..at] + msg + b[at + |msg|..]
  }

  lemma StoreKeeps(b: seq<byte>, at: nat, msg: seq<byte>, stream: seq<byte>, base: nat)
    requires Kept(b, at, stream, base) && at + |msg| <= |b|
    ensures |Stored(b, at, msg)| == |b|
    ensures Kept(Stored(b, at, msg), at + |msg|, stream + msg, base)
  {
    assert (stream + msg)[base..] == stream[base..] + msg;
    Split(b[..at] + msg, b[at + |msg|..]);
  }

  lemma StorePends(b: seq<byte>, at: nat, msg: seq<byte>, begin: nat, last: nat, stream: seq<byte>, base: nat,
                   wrapped: bool, start: nat)
    requires Pending(b, at, begin, last, stream, base, wrapped, start)
    requires at + |msg| <= |b| && (wrapped ==> at + |msg| <= begin)
    ensures Pending(Stored(b, at, msg), at + |msg|, begin, last, stream + msg, base, wrapped, start)
  {
    if wrapped {
      assert Stored(b, at, msg)[begin..last] == b[begin..last];
      assert (stream + msg)[start..base] == stream[start..base];
    }
  }

  lemma WrapPends(b: seq<byte>, writePos: nat, begin: nat, last: nat, stream: seq<byte>, base: nat, start: nat)
    requires Kept(b, writePos, stream, base) && Pending(b, writePos, begin, last, stream, base, false, start)
    ensures Pending(b, 0, begin, writePos, stream, base + writePos, true, start)
  {
    assert b[begin..writePos] == b[..writePos][begin..] == stream[base..][begin..] == stream[start..];
  }

  /** The bytes that are copied out when the picture that begins at `begin` ends at `end`. */
  function Chunk(b: seq<byte>, begin: nat, end: nat, last: nat): seq<byte>
    requires begin <= |b| && end <= |b| && (end <= begin ==> begin <= last <= |b|)
  {
    if end > begin then b[begin..end] else b[begin..last] + b[..end]
  }

  lemma ChunkIsStream(b: seq<byte>, writePos: nat, begin: nat, last: nat, stream: seq<byte>, base: nat, wrapped: bool,
                      start: nat, end: nat)
    requires Kept(b, writePos, stream, base) && Pending(b, writePos, begin, last, stream, base, wrapped, start)
    requires 0 < end <= writePos && (!wrapped ==> begin < end)
    ensures start < base + end <= |stream|
    ensures Chunk(b, begin, end, last) == stream[start..base + end]
    ensures |Chunk(b, begin, end, last)| <= |b|
    ensures Pending(b, writePos, end, last, stream, base, false, base + end)
  {
    assert b[..end] == b[..writePos][..end] == stream[base..][..end] == stream[base..base + end];
    if wrapped {
      assert stream[start..base + end] == stream[start..base] + stream[base..base + end];
    } else {
      assert b[begin..end] == b[..end][begin..] == stream[base..base + end][begin..] == stream[start..base + end];
    }
  }

  lemma CutIsInStream(b: seq<byte>, writePos: nat, stream: seq<byte>, base: nat, p: nat)
    requires Kept(b, writePos, stream, base)
    requires PrefixAt(b, p) && p + 4 <= writePos && b[p + 3] == START_PICTURE
    ensures CutAt(stream, base + p + 4)
  {
    assert forall k :: 0 <= k < writePos ==> b[..writePos][k] == b[k] && stream[base..][k] == stream[base + k];
  }

  /** The byte after the first picture start code that is complete before `writePos`. */
  function NextPicture(b: seq<byte>, from: nat, writePos: nat): (r: Option<nat>)
  {
    var p := NextCode(b, from, writePos, START_PICTURE);
    if p.Some? && p.value + 4 <= writePos then Some(p.value + 4) else None
  }

  /** One round of the search. */
  lemma PictureStep(b: seq<byte>, from: nat, writePos: nat)
    requires writePos <= |b|
    ensures match FirstPrefix(b, from, writePos)
            case None => NextPicture(b, from, writePos) == None
            case Some(p) =>
              && from <= p < writePos
              && (p + 4 > writePos ==> NextPicture(b, from, writePos) == None)
              && (p + 4 <= writePos ==> NextPicture(b, from, writePos) ==
                                        if CodeAt(b, p) == START_PICTURE then Some(p + 4)
                                            else NextPicture(b, p + 4, writePos))
              && CodeAt(b, p) != NOT_FOUND
  {
  }

  lemma NextPictureIsCut(b: seq<byte>, from: nat, writePos: nat, stream: seq<byte>, base: nat)
    requires Kept(b, writePos, stream, base)
    ensures var r := NextPicture(b, from, writePos);
              r.Some? ==> from + 4 <= r.value <= writePos && CutAt(stream, base + r.value)
  {
    var p := NextCode(b, from, writePos, START_PICTURE);
    if p.Some? && p.value + 4 <= writePos {
      CutIsInStream(b, writePos, stream, base, p.value);
    }
  }

  // ---- The coding type of a picture

  /** Once that byte has arrived, the ring and the stream agree on the type. */
  lemma KindArrived(b: seq<byte>, writePos: nat, stream: seq<byte>, base: nat, at: nat)
    requires Kept(b, writePos, stream, base) && at + 2 <= writePos
    ensures KindAt(b, at) == KindAt(stream, base + at)
  {
    assert b[..writePos][at + 1] == stream[base..][at + 1];
    KindInByte(b, at);
    KindInByte(stream, base + at);
  }

  lemma KindStable(stream: seq<byte>, more: seq<byte>, pos: nat)
    requires pos + 2 <= |stream|
    ensures KindAt(stream + more, pos) == KindAt(stream, pos)
  {
    KindInByte(stream, pos);
    KindInByte(stream + more, pos);
  }

  /** The ring as a value: its bytes, and where it is written and read. */
  datatype Ring = Ring(bytes: seq<byte>, writePos: nat, index: nat)
  {
    ghost predicate Holds(n: nat) { writePos <= |bytes| && n <= |bytes| }

    /** With room for `n` more bytes. */
    function Wrapped(n: nat): Ring { if writePos + n > |bytes| then Ring(bytes, 0, 0) else this }

    function Took(msg: seq<byte>): Ring
      requires Holds(|msg|)
    {
      var r := Wrapped(|msg|);
      Ring(Stored(bytes, r.writePos, msg), r.writePos + |msg|, r.index)
    }

    /** Where the next picture begins whose start code has arrived completely. */
    function Picture(): Option<nat> { NextPicture(bytes, (index + 7) / 8, writePos) }
  }

  // ---- Runs

  function Concat(chunks: seq<seq<byte>>): seq<byte>
  {
    if chunks == [] then [] else Concat(chunks[..|chunks| - 1]) + chunks[|chunks| - 1]
  }

  ghost predicate Piece(stream: seq<byte>, cuts: seq<nat>, chunks: seq<seq<byte>>, k: nat)
    requires |cuts| == |chunks| + 1 && k < |chunks|
  {
    cuts[k] < cuts[k + 1] <= |stream| && chunks[k] == stream[cuts[k]..cuts[k + 1]]
  }

  /** The chunks are the stretches of the stream between consecutive cuts. */
  ghost predicate Partition(stream: seq<byte>, cuts: seq<nat>, chunks: seq<seq<byte>>)
  {
    && |cuts| == |chunks| + 1
    && (forall k :: 0 <= k < |cuts| ==> CutAt(stream, cuts[k]))
    && forall k :: 0 <= k < |chunks| ==> Piece(stream, cuts, chunks, k)
  }

  /** No byte is lost or repeated. */
  lemma {:induction false} PartitionConserves(stream: seq<byte>, cuts: seq<nat>, chunks: seq<seq<byte>>)
    requires Partition(stream, cuts, chunks)
    ensures cuts[0] <= cuts[|cuts| - 1] <= |stream|
    ensures Concat(chunks) == stream[cuts[0]..cuts[|cuts| - 1]]
  {
    if chunks != [] {
      var n := |chunks|;
      assert Piece(stream, cuts, chunks, n - 1);
      var cuts', chunks' := cuts[..n], chunks[..n - 1];
      forall k | 0 <= k < n - 1 ensures Piece(stream, cuts', chunks', k) {
        assert Piece(stream, cuts, chunks, k);
      }
      PartitionConserves(stream, cuts', chunks');
      Adjacent(stream, cuts[0], cuts[n - 1], cuts[n]);
    }
  }

  lemma PartitionGrows(stream: seq<byte>, cuts: seq<nat>, chunks: seq<seq<byte>>, more: seq<byte>)
    requires Partition(stream, cuts, chunks)
    ensures Partition(stream + more, cuts, chunks)
  {
    forall k | 0 <= k < |chunks| ensures Piece(stream + more, cuts, chunks, k) {
      assert Piece(stream, cuts, chunks, k);
      assert (stream + more)[cuts[k]..cuts[k + 1]] == stream[cuts[k]..cuts[k + 1]];
    }
  }

  lemma PartitionExtends(stream: seq<byte>, cuts: seq<nat>, chunks: seq<seq<byte>>, cut: nat)
    requires Partition(stream, cuts, chunks) && CutAt(stream, cut) && cuts[|cuts| - 1] < cut
    ensures Partition(stream, cuts + [cut], chunks + [stream[cuts[|cuts| - 1]..cut]])
  {
    var cuts', chunks' := cuts + [cut], chunks + [stream[cuts[|cuts| - 1]..cut]];
    forall k | 0 <= k < |chunks'| ensures Piece(stream, cuts', chunks', k) {
      assert k < |chunks| ==> Piece(stream, cuts, chunks, k);
    }
  }

  // ---- The player's end of the socket

  lemma StoredPrefix(b: seq<byte>, first: seq<byte>, second: seq<byte>)
    requires |first| + |second| <= |b|
    ensures Stored(b, 0, first)[..|first|] == first
    ensures Stored(Stored(b, 0, first), |first|, second)[..|first| + |second|] == first + second
  {
    assert Stored(b, 0, first) == first + b[|first|..];
    Split(first, b[|first|..]);
    Split(first + second, Stored(b, 0, first)[|first| + |second|..]);
  }

  method SetBytes(dst: array<byte>, src: seq<byte>, offset: nat)
    requires offset + |src| <= dst.Length
    modifies dst
    ensures dst[..] == Stored(old(dst[..]), offset, src)
  {
    forall i | 0 <= i < |src| {
      dst[offset + i] := src[i];
    }
  }

  /** Is the client waiting for an intra picture, and where is the last cut in the stream? */
  datatype Status = Status(waiting: bool, start: nat)

  /** What one search in the ring does. */
  datatype Clause = Emission | Waiting | Position | Type

  ghost predicate Holds(k: Clause, bytes: seq<byte>, found: Option<nat>, stream: seq<byte>, base: nat, was: Status,
                        now: Status,
                        emitted: bool)
  {
    match k
    case Emission => emitted <==> !was.waiting && found.Some?
    case Waiting => now.waiting <==> was.waiting && !(found.Some? && KindAt(bytes, found.value) == PICTURE_TYPE_I)
    case Position =>
      && (emitted || (was.waiting && !now.waiting) ==>
          found.Some? && now.start == base + found.value && CutAt(stream, now.start))
      && (emitted ==> was.start < now.start) && (!emitted && !was.waiting ==> now.start == was.start)
    case Type => was.waiting && !now.waiting && now.start + 2 <= |stream| ==>
        KindAt(stream, now.start) == PICTURE_TYPE_I
  }

  /** A picture found ends the chunk; while the client is waiting, it begins the first one if the bytes in the ring
      say that it is intra coded. If its type has arrived, it is intra coded in the stream, too. */
  ghost predicate Searched(bytes: seq<byte>, found: Option<nat>, stream: seq<byte>, base: nat, was: Status, now: Status,
                           emitted: bool)
  {
    forall k :: Holds(k, bytes, found, stream, base, was, now, emitted)
  }

  lemma SearchedMeans(bytes: seq<byte>, found: Option<nat>, stream: seq<byte>, base: nat, was: Status, now: Status,
                      emitted: bool)
    requires Searched(bytes, found, stream, base, was, now, emitted)
    ensures emitted <==> !was.waiting && found.Some?
    ensures now.waiting <==> was.waiting && !(found.Some? && KindAt(bytes, found.value) == PICTURE_TYPE_I)
    ensures emitted || (was.waiting && !now.waiting) ==>
              found.Some? && now.start == base + found.value && CutAt(stream, now.start)
    ensures (emitted ==> was.start < now.start) && (!emitted && !was.waiting ==> now.start == was.start)
    ensures was.waiting && !now.waiting && now.start + 2 <= |stream| ==> KindAt(stream, now.start) == PICTURE_TYPE_I
  {
    assert Holds(Emission, bytes, found, stream, base, was, now, emitted);
    assert Holds(Waiting, bytes, found, stream, base, was, now, emitted);
    assert Holds(Position, bytes, found, stream, base, was, now, emitted);
    assert Holds(Type, bytes, found, stream, base, was, now, emitted);
  }

  lemma NothingFound(bytes: seq<byte>, stream: seq<byte>, base: nat, was: Status)
    ensures Searched(bytes, None, stream, base, was, was, false)
  {
  }

  lemma ChunkEnds(bytes: seq<byte>, stream: seq<byte>, base: nat, start: nat, end: nat)
    requires start < base + end && CutAt(stream, base + end)
    ensures Searched(bytes, Some(end), stream, base, Status(false, start), Status(false, base + end), true)
  {
  }

  lemma TypeRead(ring: Ring, stream: seq<byte>, base: nat, start: nat, at: nat)
    requires Kept(ring.bytes, ring.writePos, stream, base) && CutAt(stream, base + at)
    ensures KindAt(ring.bytes, at) == PICTURE_TYPE_I ==>
              Searched(ring.bytes, Some(at), stream, base, Status(true, start), Status(false, base + at), false)
    ensures KindAt(ring.bytes, at) != PICTURE_TYPE_I ==>
              Searched(ring.bytes, Some(at), stream, base, Status(true, start), Status(true, start), false)
  {
    if at + 2 <= ring.writePos { KindArrived(ring.bytes, ring.writePos, stream, base, at); }
  }

  /** What the client remembers beside the ring: everything received, where the ring's first byte lies in it, the
      picture being received, and whether the ring has wrapped since the last cut. */
  datatype Mark = Mark(stream: seq<byte>, base: nat, begin: nat, last: nat, wrapped: bool, start: nat, waiting: bool)
  {
    /** A message of `n` bytes leaves the unfinished picture in place: at most one wrap per picture, and no write past
        the picture's start after it. */
    predicate Fits(size: nat, writePos: nat, n: nat)
    {
      && n <= size
      && (!waiting ==> if writePos + n > size then !wrapped && n <= begin else wrapped ==> writePos + n <= begin)
    }

    function Wrap(ring: Ring, n: nat): Mark
    {
      if ring.writePos + n > |ring.bytes| then this.(last := ring.writePos, base := base + ring.writePos,
                                                     wrapped := true) else this
    }

    function Begin(at: nat): Mark { this.(waiting := false, begin := at, wrapped := false, start := base + at) }

    function Sum(): Status { Status(waiting, start) }
  }

  datatype Part = Content | Unfinished

  ghost predicate PartHolds(k: Part, ring: Ring, m: Mark)
  {
    match k
    case Content => Kept(ring.bytes, ring.writePos, m.stream, m.base)
    case Unfinished =>
      !m.waiting ==>
        && CutAt(m.stream, m.start)
        && Pending(ring.bytes, ring.writePos, m.begin, m.last, m.stream, m.base, m.wrapped, m.start)
        && (!m.wrapped ==> m.begin <= (ring.index + 7) / 8 + 3)
  }

  ghost predicate Tracked(ring: Ring, m: Mark)
  {
    forall k :: PartHolds(k, ring, m)
  }

  lemma TrackedMeans(ring: Ring, m: Mark)
    requires Tracked(ring, m)
    ensures Kept(ring.bytes, ring.writePos, m.stream, m.base)
    ensures !m.waiting ==> CutAt(m.stream, m.start) && (!m.wrapped ==> m.begin <= (ring.index + 7) / 8 + 3)
    ensures !m.waiting ==> Pending(ring.bytes, ring.writePos, m.begin, m.last, m.stream, m.base, m.wrapped, m.start)
  {
    assert PartHolds(Content, ring, m) && PartHolds(Unfinished, ring, m);
  }

  lemma TrackedWrap(ring: Ring, m: Mark, n: nat)
    requires Tracked(ring, m) && m.Fits(|ring.bytes|, ring.writePos, n)
    ensures var r, m' := ring.Wrapped(n), m.Wrap(ring, n);
            && Tracked(r, m') && r.writePos + n <= |r.bytes| && (!m.waiting && m'.wrapped ==> r.writePos + n <= m.begin)
  {
    TrackedMeans(ring, m);
    if ring.writePos + n > |ring.bytes| && !m.waiting {
      WrapPends(ring.bytes, ring.writePos, m.begin, m.last, m.stream, m.base, m.start);
    }
  }

  lemma TrackedStore(ring: Ring, m: Mark, msg: seq<byte>)
    requires Tracked(ring, m) && ring.writePos + |msg| <= |ring.bytes|
    requires !m.waiting && m.wrapped ==> ring.writePos + |msg| <= m.begin
    ensures Tracked(Ring(Stored(ring.bytes, ring.writePos, msg), ring.writePos + |msg|, ring.index),
                    m.(stream := m.stream + msg))
  {
    TrackedMeans(ring, m);
    StoreKeeps(ring.bytes, ring.writePos, msg, m.stream, m.base);
    if !m.waiting {
      StorePends(ring.bytes, ring.writePos, msg, m.begin, m.last, m.stream, m.base, m.wrapped, m.start);
    }
  }

  lemma TrackedFound(ring: Ring, m: Mark)
    requires Tracked(ring, m) && ring.Picture().Some?
    ensures var at := ring.Picture().value;
            && 0 < at <= ring.writePos && CutAt(m.stream, m.base + at) && Tracked(ring.(index := at * 8), m)
            && (!m.waiting && !m.wrapped ==> m.begin < at)
  {
    TrackedMeans(ring, m);
    NextPictureIsCut(ring.bytes, (ring.index + 7) / 8, ring.writePos, m.stream, m.base);
  }

  lemma TrackedMissed(ring: Ring, m: Mark)
    requires Tracked(ring, m)
    ensures Tracked(ring.(index := if ring.writePos >= 3 then (ring.writePos - 3) * 8 else 0), m)
  {
    TrackedMeans(ring, m);
  }

  lemma TrackedAccept(ring: Ring, m: Mark, at: nat)
    requires Tracked(ring, m) && m.waiting && at <= ring.writePos && CutAt(m.stream, m.base + at)
    ensures Tracked(ring.(index := at * 8 + 13), m) && Tracked(ring.(index := at * 8 + 13), m.Begin(at))
  {
    TrackedMeans(ring, m);
  }

  lemma TrackedCut(ring: Ring, m: Mark, end: nat)
    requires Tracked(ring, m) && !m.waiting && 0 < end <= ring.writePos && CutAt(m.stream, m.base + end)
    requires ring.index == end * 8 && (!m.wrapped ==> m.begin < end)
    ensures m.begin <= |ring.bytes| && end <= |ring.bytes| && (end <= m.begin ==> m.begin <= m.last <= |ring.bytes|)
    ensures m.start < m.base + end <= |m.stream| && Tracked(ring, m.Begin(end))
    ensures var chunk := Chunk(ring.bytes, m.begin, end, m.last);
              |chunk| <= |ring.bytes| && chunk == m.stream[m.start..m.base + end]
  {
    TrackedMeans(ring, m);
    ChunkIsStream(ring.bytes, ring.writePos, m.begin, m.last, m.stream, m.base, m.wrapped, m.start, end);
  }

  class SocketClient {
    /** The picture being decoded, and the ring. */
    const current: Reader
    const next: Reader
    var chunkBegin: nat
    var lastWriteBeforeWrap: nat
    var waitForIntraFrame: bool

    /** Has the ring wrapped since the last cut? The source does not record it; only ghost code and `Fits` read it. */
    var wrapped: bool

    /** Everything received, where the ring's first byte lies in it, and the last cut. */
    ghost var stream: seq<byte>
    ghost var base: nat
    ghost var start: nat

    ghost predicate Valid()
      reads this, next, next.bytes
    {
      && current != next && current.bytes != next.bytes && current.bytes.Length == next.bytes.Length
      && Tracked(View(), Marks())
    }

    ghost function View(): Ring
      reads next, next.bytes
    {
      Ring(next.bytes[..], next.writePos, next.index)
    }

    ghost function Marks(): Mark
      reads this
    {
      Mark(stream, base, chunkBegin, lastWriteBeforeWrap, wrapped, start, waitForIntraFrame)
    }

    predicate Fits(n: nat)
      reads this, next
    {
      Mark([], 0, chunkBegin, lastWriteBeforeWrap, wrapped, 0, waitForIntraFrame).Fits(next.bytes.Length, next.writePos,
              n)
    }

    constructor (size: nat)
      ensures Valid() && fresh(current) && fresh(next) && fresh(current.bytes) && fresh(next.bytes)
      ensures stream == [] && waitForIntraFrame && View() == Ring(next.bytes[..], 0, 0) && next.bytes.Length == size
    {
      var a, b := new byte[size](_ => 0), new byte[size](_ => 0);
      current := new Reader(a);
      next := new Reader(b);
      chunkBegin, lastWriteBeforeWrap, waitForIntraFrame := 0, 0, true;
      stream, base, wrapped, start := [], 0, false, 0;
      new;
      next.writePos := 0;
    }

    method WrapAround(n: nat)
      requires Valid() && Fits(n)
      modifies this`lastWriteBeforeWrap, this`base, this`wrapped, next`writePos, next`index
      ensures Valid() && next.writePos + n <= next.bytes.Length
      ensures View() == old(View()).Wrapped(n) && Marks() == old(Marks()).Wrap(old(View()), n)
      ensures !waitForIntraFrame && wrapped ==> next.writePos + n <= chunkBegin
    {
      TrackedWrap(View(), Marks(), n);
      if next.writePos + n > next.bytes.Length {
        lastWriteBeforeWrap := next.writePos;
        base, wrapped := base + next.writePos, true;
        next.writePos := 0;
        next.index := 0;
      }
    }

    method Append(msg: seq<byte>)
      requires Valid() && next.writePos + |msg| <= next.bytes.Length
      requires !waitForIntraFrame && wrapped ==> next.writePos + |msg| <= chunkBegin
      modifies this`stream, next`writePos, next.bytes
      ensures Valid() && stream == old(stream) + msg
      ensures View() == Ring(Stored(old(next.bytes[..]), old(next.writePos), msg), old(next.writePos) + |msg|,
                             next.index)
    {
      TrackedStore(View(), Marks(), msg);
      SetBytes(next.bytes, msg, next.writePos);
      next.writePos := next.writePos + |msg|;
      stream := stream + msg;
    }

    method FindPicture() returns (found: bool)
      requires next.writePos <= next.bytes.Length
      modifies next`index
      ensures found == old(View()).Picture().Some? && (found ==> next.index == old(View()).Picture().value * 8)
      ensures !found ==> next.index == if next.writePos >= 3 then (next.writePos - 3) * 8 else 0
    {
      ghost var b, limit, target := next.bytes[..], next.writePos, View().Picture();
      var startCode := 0;
      while true
        invariant NextPicture(b, (next.index + 7) / 8, limit) == target
        decreases limit + 8 - (next.index + 7) / 8
      {
        PictureStep(b, (next.index + 7) / 8, limit);
        startCode := next.FindNextMPEGStartCode();
        if startCode == NOT_FOUND || next.index / 8 > next.writePos {
          next.index := if next.writePos >= 3 then (next.writePos - 3) * 8 else 0;
          return false;
        } else if startCode == START_PICTURE {
          return true;
        }
      }
    }

    /** `receiveSocketMessage` on the stream's own messages. */
    method Receive(msg: seq<byte>) returns (emitted: bool)
      requires Valid() && Fits(|msg|)
      modifies this, next, next.bytes, current, current.bytes
      ensures Valid() && stream == old(stream) + msg && old(View()).Holds(|msg|)
      ensures next.bytes[..] == old(View()).Took(msg).bytes && next.writePos == old(View()).Took(msg).writePos
      ensures Searched(next.bytes[..], old(View()).Took(msg).Picture(), stream, base, old(Marks()).Sum(), Marks().Sum(),
                       emitted)
      ensures emitted ==>
                old(start) < start <= |stream| && current.writePos <= current.bytes.Length && current.index == 0
                          && current.bytes[..current.writePos] == stream[old(start)..start]
    {
      TrackedMeans(View(), Marks());
      WrapAround(|msg|);
      Append(msg);
      emitted := Search();
    }

    /** The part of `receiveSocketMessage` after the bytes are stored. */
    method Search() returns (emitted: bool)
      requires Valid()
      modifies this`waitForIntraFrame, this`chunkBegin, this`start, this`wrapped, next`index, current, current.bytes
      ensures Valid() && Searched(next.bytes[..], old(View()).Picture(), stream, base, old(Marks()).Sum(),
                                  Marks().Sum(), emitted)
      ensures emitted ==>
                old(start) < start <= |stream| && current.writePos <= current.bytes.Length && current.index == 0
                          && current.bytes[..current.writePos] == stream[old(start)..start]
    {
      ghost var picture := View().Picture();
      var found := Locate(picture);
      if !found {
        NothingFound(next.bytes[..], stream, base, Marks().Sum());
        return false;
      }
      if waitForIntraFrame {
        AcceptIntra(picture.value);
        return false;
      }
      EmitChunk(next.index / 8);
      emitted := true;
    }

    method Locate(ghost picture: Option<nat>) returns (found: bool)
      requires Valid() && picture == View().Picture()
      modifies next`index
      ensures Valid() && found == picture.Some?
      ensures found ==>
                next.index == picture.value * 8 && 0 < picture.value <= next.writePos
                  && CutAt(stream, base + picture.value)
      ensures found && !waitForIntraFrame && !wrapped ==> chunkBegin < picture.value
    {
      ghost var ring := View();
      assert next.writePos <= next.bytes.Length by { TrackedMeans(ring, Marks()); }
      found := FindPicture();
      if found {
        TrackedFound(ring, Marks());
      } else {
        TrackedMissed(ring, Marks());
      }
    }

    /** Starts at a picture whose three type bits say intra. */
    method AcceptIntra(ghost at: nat)
      requires Valid() && waitForIntraFrame && next.index == at * 8 && at <= next.writePos && CutAt(stream, base + at)
      modifies this`waitForIntraFrame, this`chunkBegin, this`start, this`wrapped, next`index
      ensures Valid() && Searched(next.bytes[..], Some(at), stream, base, old(Marks()).Sum(), Marks().Sum(), false)
    {
      TrackedAccept(View(), Marks(), at);
      var intra := ReadType(at);
      if intra {
        waitForIntraFrame := false;
        chunkBegin := (next.index - 13) / 8;
        wrapped, start := false, base + chunkBegin;
      }
    }

    method ReadType(ghost at: nat) returns (intra: bool)
      requires Valid() && next.index == at * 8 && CutAt(stream, base + at)
      modifies next`index
      ensures next.index == old(next.index) + 13
      ensures Searched(next.bytes[..], Some(at), stream, base, Status(true, start),
                       if intra then Status(false, base + at) else Status(true, start), false)
    {
      TrackedMeans(View(), Marks());
      TypeRead(View(), stream, base, start, at);
      var kind := TypeBits();
      intra := kind == PICTURE_TYPE_I;
    }

    method TypeBits() returns (kind: nat)
      requires next.index % 8 == 0
      modifies next`index
      ensures kind == KindAt(next.bytes[..], old(next.index) / 8) && next.index == old(next.index) + 13
    {
      next.Advance(10);
      kind := next.GetBits(3);
    }

    /** Copies the chunk that ends at the reader's position. */
    method EmitChunk(chunkEnd: nat)
      requires Valid() && !waitForIntraFrame && next.index == chunkEnd * 8
      requires 0 < chunkEnd <= next.writePos && CutAt(stream, base + chunkEnd) && (!wrapped ==> chunkBegin < chunkEnd)
      modifies this`chunkBegin, this`start, this`wrapped, current, current.bytes
      ensures Valid() && Searched(next.bytes[..], Some(chunkEnd), stream, base, old(Marks()).Sum(), Marks().Sum(), true)
      ensures old(start) < start <= |stream| && current.writePos <= current.bytes.Length && current.index == 0
      ensures current.bytes[..current.writePos] == stream[old(start)..start]
    {
      TrackedCut(View(), Marks(), chunkEnd);
      ChunkEnds(next.bytes[..], stream, base, start, chunkEnd);
      CopyChunk(chunkEnd);
      current.index := 0;
      chunkBegin := chunkEnd;
      wrapped, start := false, base + chunkEnd;
    }

    method CopyChunk(chunkEnd: nat)
      requires current != next && current.bytes != next.bytes
      requires chunkBegin <= next.bytes.Length && chunkEnd <= next.bytes.Length
      requires chunkEnd <= chunkBegin ==> chunkBegin <= lastWriteBeforeWrap <= next.bytes.Length
      requires |Chunk(next.bytes[..], chunkBegin, chunkEnd, lastWriteBeforeWrap)| <= current.bytes.Length
      modifies current`writePos, current.bytes
      ensures current.writePos <= current.bytes.Length
      ensures current.bytes[..current.writePos] == Chunk(next.bytes[..], chunkBegin, chunkEnd, lastWriteBeforeWrap)
    {
      ghost var b, was := next.bytes[..], current.bytes[..];
      if chunkEnd > chunkBegin {
        StoredPrefix(was, b[chunkBegin..chunkEnd], []);
        SetBytes(current.bytes, next.bytes[chunkBegin..chunkEnd], 0);
        current.writePos := chunkEnd - chunkBegin;
      } else {
        StoredPrefix(was, b[chunkBegin..lastWriteBeforeWrap], b[..chunkEnd]);
        SetBytes(current.bytes, next.bytes[chunkBegin..lastWriteBeforeWrap], 0);
        var written := lastWriteBeforeWrap - chunkBegin;
        SetBytes(current.bytes, next.bytes[..chunkEnd], written);
        current.writePos := chunkEnd + written;
      }
    }
  }

  /** The chunks copied out so far. */
  ghost predicate Delivered(stream: seq<byte>, waiting: bool, start: nat, cuts: seq<nat>, chunks: seq<seq<byte>>)
  {
    if waiting then chunks == [] else Partition(stream, cuts, chunks) && cuts[|cuts| - 1] == start
  }

  lemma DeliveredStep(stream: seq<byte>, waiting: bool, start: nat, cuts: seq<nat>, chunks: seq<seq<byte>>,
                      msg: seq<byte>, start': nat)
    requires Delivered(stream, waiting, start, cuts, chunks) && CutAt(stream + msg, start')
    ensures waiting ==> Delivered(stream + msg, false, start', [start'], chunks)
    ensures !waiting && start == start' ==> Delivered(stream + msg, false, start, cuts, chunks)
    ensures !waiting && start < start' ==>
              Delivered(stream + msg, false, start', cuts + [start'], chunks + [(stream + msg)[start..start']])
  {
    if !waiting {
      PartitionGrows(stream, cuts, chunks, msg);
      if start < start' { PartitionExtends(stream + msg, cuts, chunks, start'); }
    }
  }

  /** The first cut lies at an intra picture of the stream, if the type had arrived when it was read, with the first
      `n` bytes. */
  ghost predicate FirstIsIntra(stream: seq<byte>, cuts: seq<nat>, n: nat)
  {
    cuts != [] && n <= |stream| && (cuts[0] + 2 <= n ==> KindAt(stream, cuts[0]) == PICTURE_TYPE_I)
  }

  lemma FirstStays(stream: seq<byte>, cuts: seq<nat>, n: nat, more: seq<byte>, cut: nat)
    requires FirstIsIntra(stream, cuts, n)
    ensures FirstIsIntra(stream + more, cuts, n) && FirstIsIntra(stream + more, cuts + [cut], n)
  {
    if cuts[0] + 2 <= n { KindStable(stream, more, cuts[0]); }
  }

  /** What is known in the course of a session: the chunks so far, and the picture that the first one begins with. */
  datatype Aspect = Chunks | First

  ghost predicate AspectHolds(k: Aspect, stream: seq<byte>, status: Status, cuts: seq<nat>, chunks: seq<seq<byte>>,
                              n: nat)
  {
    match k
    case Chunks => Delivered(stream, status.waiting, status.start, cuts, chunks)
    case First => !status.waiting ==> FirstIsIntra(stream, cuts, n)
  }

  ghost predicate Session(stream: seq<byte>, status: Status, cuts: seq<nat>, chunks: seq<seq<byte>>, n: nat)
  {
    forall k :: AspectHolds(k, stream, status, cuts, chunks, n)
  }

  function CutsAfter(was: Status, now: Status, emitted: bool, cuts: seq<nat>): seq<nat>
  {
    if was.waiting then [now.start] else if emitted then cuts + [now.start] else cuts
  }

  lemma SessionStep(stream: seq<byte>, msg: seq<byte>, bytes: seq<byte>, found: Option<nat>, base: nat, was: Status,
                    now: Status, emitted: bool,
                    cuts: seq<nat>, chunks: seq<seq<byte>>, n: nat)
    requires Session(stream, was, cuts, chunks, n) && Searched(bytes, found, stream + msg, base, was, now, emitted)
    ensures emitted ==> was.start < now.start <= |stream + msg|
    ensures Session(stream + msg, now, CutsAfter(was, now, emitted, cuts),
                    if emitted then chunks + [(stream + msg)[was.start..now.start]] else chunks,
                    if was.waiting then |stream + msg| else n)
  {
    assert AspectHolds(Chunks, stream, was, cuts, chunks, n) && AspectHolds(First, stream, was, cuts, chunks, n);
    SearchedMeans(bytes, found, stream + msg, base, was, now, emitted);
    if !now.waiting {
      if was.waiting || emitted {
        DeliveredStep(stream, was.waiting, was.start, cuts, chunks, msg, now.start);
      } else {
        PartitionGrows(stream, cuts, chunks, msg);
      }
      if !was.waiting { FirstStays(stream, cuts, n, msg, now.start); }
    }
  }

  lemma SessionMeans(stream: seq<byte>, status: Status, cuts: seq<nat>, chunks: seq<seq<byte>>, n: nat)
    requires Session(stream, status, cuts, chunks, n)
    ensures status.waiting ==> chunks == []
    ensures !status.waiting ==> Partition(stream, cuts, chunks) && cuts[0] <= status.start <= |stream|
                                && Concat(chunks) == stream[cuts[0]..status.start]
    ensures !status.waiting && cuts[0] + 2 <= n ==> KindAt(stream, cuts[0]) == PICTURE_TYPE_I
  {
    assert AspectHolds(Chunks, stream, status, cuts, chunks, n) && AspectHolds(First, stream, status, cuts, chunks, n);
    if !status.waiting { PartitionConserves(stream, cuts, chunks); }
  }

  /** A whole session: messages are received as long as they fit. The chunks handed to the decoder are the stream from
      the first accepted picture to the last cut, without loss or repetition. The first accepted picture is intra coded
      if the two bytes after its start code had arrived with the message that made it accepted. */
  method Play(client: SocketClient, messages: seq<seq<byte>>)
    returns (chunks: seq<seq<byte>>, received: nat, ghost cuts: seq<nat>, ghost accepted: nat)
    requires client.Valid() && client.stream == [] && client.waitForIntraFrame
    modifies client, client.next, client.next.bytes, client.current, client.current.bytes
    ensures client.Valid() && accepted <= received <= |messages| && client.stream == Concat(messages[..received])
    ensures received < |messages| ==> !client.Fits(|messages[received]|)
    ensures client.waitForIntraFrame ==> chunks == []
    ensures !client.waitForIntraFrame ==> Partition(client.stream, cuts, chunks)
    ensures !client.waitForIntraFrame ==> cuts[0] <= client.start <= |client.stream|
                                          && Concat(chunks) == client.stream[cuts[0]..client.start]
    ensures !client.waitForIntraFrame && cuts[0] + 2 <= |Concat(messages[..accepted])| ==>
              KindAt(client.stream, cuts[0]) == PICTURE_TYPE_I
  {
    chunks, received, cuts, accepted := [], 0, [], 0;
    while received < |messages| && client.Fits(|messages[received]|)
      invariant client.Valid() && accepted <= received <= |messages| && client.stream == Concat(messages[..received])
      invariant Session(client.stream, client.Marks().Sum(), cuts, chunks, |Concat(messages[..accepted])|)
    {
      ConcatNext(messages, received);
      ghost var was := client.Marks().Sum();
      chunks, cuts := ReceiveNext(client, messages[received], chunks, cuts, |Concat(messages[..accepted])|);
      accepted := if was.waiting then received + 1 else accepted;
      received := received + 1;
    }
    SessionMeans(client.stream, client.Marks().Sum(), cuts, chunks, |Concat(messages[..accepted])|);
  }

  method ReceiveNext(client: SocketClient, msg: seq<byte>, chunks: seq<seq<byte>>, ghost cuts: seq<nat>, ghost n: nat)
    returns (chunks': seq<seq<byte>>, ghost cuts': seq<nat>)
    requires client.Valid() && client.Fits(|msg|) && Session(client.stream, client.Marks().Sum(), cuts, chunks, n)
    modifies client, client.next, client.next.bytes, client.current, client.current.bytes
    ensures client.Valid() && client.stream == old(client.stream) + msg
    ensures Session(client.stream, client.Marks().Sum(), cuts', chunks',
                    if old(client.waitForIntraFrame) then |client.stream| else n)
  {
    assert client.View().Holds(|msg|) by { TrackedMeans(client.View(), client.Marks()); }
    ghost var stream, was, found := client.stream, client.Marks().Sum(), client.View().Took(msg).Picture();
    var emitted := client.Receive(msg);
    SessionStep(stream, msg, client.next.bytes[..], found, client.base, was, client.Marks().Sum(), emitted, cuts,
                chunks, n);
    cuts' := CutsAfter(was, client.Marks().Sum(), emitted, cuts);
    chunks' := chunks;
    if emitted {
      chunks' := chunks + [client.current.bytes[..client.current.writePos]];
    }
  }

  // ---- A session that starts at the wrong picture

  const FILLER: seq<byte> := [9, 9, 9, 9, 9, 8, 9, 9]
  const START: seq<byte> := [0, 0, 1, 0]
  const PREDICTED: seq<byte> := [0, 16]

  lemma FillerHasNone(r: Ring)
    requires r.bytes == FILLER
    ensures r.Picture() == None
  {
  }

  lemma StartIsFound(r: Ring)
    requires r.bytes == [0, 0, 1, 0, 9, 8, 9, 9] && r.writePos == 4 && r.index == 0
    ensures r.Picture() == Some(4) && KindAt(r.bytes, 4) == PICTURE_TYPE_I
  {
    assert FirstPrefix(r.bytes, 0, 4) == Some(0);
    TypeOfByte(r.bytes, 4);
  }

  lemma OnlyOneStart(r: Ring)
    requires r.bytes == [0, 0, 1, 0, 0, 16, 9, 9]
    ensures r.Picture().Some? ==> r.Picture().value == 4
  {
  }

  method Fill(client: SocketClient)
    requires client.Valid() && client.waitForIntraFrame && client.stream == []
    requires client.next.bytes.Length == 8 && client.next.writePos == 0
    modifies client, client.next, client.next.bytes, client.current, client.current.bytes
    ensures client.Valid() && client.waitForIntraFrame && client.stream == FILLER
    ensures client.next.bytes[..] == FILLER && client.next.writePos == 8
  {
    ghost var was, ring := client.Marks().Sum(), client.View().Took(FILLER);
    assert ring.bytes == FILLER;
    FillerHasNone(ring);
    var emitted := client.Receive(FILLER);
    SearchedMeans(client.next.bytes[..], ring.Picture(), client.stream, client.base, was, client.Marks().Sum(),
                  emitted);
  }

  method StartAlone(client: SocketClient)
    requires client.Valid() && client.waitForIntraFrame && client.stream == FILLER
    requires client.next.bytes[..] == FILLER && client.next.writePos == 8
    modifies client, client.next, client.next.bytes, client.current, client.current.bytes
    ensures client.Valid() && !client.waitForIntraFrame && client.stream == FILLER + START && client.start == 12
    ensures client.next.bytes[..] == [0, 0, 1, 0, 9, 8, 9, 9] && client.next.writePos == 4
  {
    ghost var was, ring := client.Marks().Sum(), client.View().Took(START);
    assert ring.bytes == [0, 0, 1, 0, 9, 8, 9, 9];
    StartIsFound(ring);
    var emitted := client.Receive(START);
    SearchedMeans(client.next.bytes[..], ring.Picture(), client.stream, client.base, was, client.Marks().Sum(),
                  emitted);
    TrackedMeans(client.View(), client.Marks());
  }

  method TheRest(client: SocketClient)
    requires client.Valid() && !client.waitForIntraFrame && client.stream == FILLER + START && client.start == 12
    requires client.next.bytes[..] == [0, 0, 1, 0, 9, 8, 9, 9] && client.next.writePos == 4
    modifies client, client.next, client.next.bytes, client.current, client.current.bytes
    ensures client.Valid() && !client.waitForIntraFrame && client.stream == FILLER + START + PREDICTED
            && client.start == 12
  {
    TrackedMeans(client.View(), client.Marks());
    ghost var was, ring := client.Marks().Sum(), client.View().Took(PREDICTED);
    assert ring.bytes == [0, 0, 1, 0, 0, 16, 9, 9];
    OnlyOneStart(ring);
    var emitted := client.Receive(PREDICTED);
    SearchedMeans(client.next.bytes[..], ring.Picture(), client.stream, client.base, was, client.Marks().Sum(),
                  emitted);
    TrackedMeans(client.View(), client.Marks());
  }

  /** The type of a picture that has not arrived is read from an older message: a start code alone, after a message with
      the right byte in the right place, starts the decoder at a picture that turns out not to be intra coded. */
  method StaleStart() returns (client: SocketClient)
    ensures client.Valid() && !client.waitForIntraFrame && client.stream == FILLER + START + PREDICTED
    ensures client.start == 12 && CutAt(client.stream, 12) && KindAt(client.stream, 12) == 2 != PICTURE_TYPE_I
  {
    client := new SocketClient(8);
    Fill(client);
    StartAlone(client);
    TheRest(client);
    TypeOfByte(client.stream, 12);
  }

  lemma ConcatNext(messages: seq<seq<byte>>, n: nat)
    requires n < |messages|
    ensures Concat(messages[..n + 1]) == Concat(messages[..n]) + messages[n]
  {
    assert messages[..n + 1][..n] == messages[..n];
  }
}
