/** The seek index over a whole video file. */
module SeekIndex {
  import opened Common
  import opened Seqs
  import opened BitReader

  const START_PICTURE: int := 0x00
  const PICTURE_TYPE_I: int := 1

  /** A picture is named by the byte after its start code; its coding type is the three bits after the ten of the
      temporal reference. */
  function KindAt(s: seq<byte>, pos: nat): nat { Bits(s, pos * 8 + 10, 3) }

  /** The start codes that a linear scan from byte `i` stops at. Reading a picture's type moves the scan two bytes
      on. */
  function Stops(s: seq<byte>, i: nat, limit: nat): seq<nat>
    decreases limit - i
  {
    match FirstPrefix(s, i, limit)
    case None => []
    case Some(p) => [p] + Stops(s, if CodeAt(s, p) == START_PICTURE then p + 6 else p + 4, limit)
  }

  /** Where `findStartCode` stops: the first start code with the given value. */
  function NextCode(s: seq<byte>, i: nat, limit: nat, code: int): (r: Option<nat>)
    ensures r.Some? ==> i <= r.value < limit && PrefixAt(s, r.value) && CodeAt(s, r.value) == code
    decreases limit - i
  {
    match FirstPrefix(s, i, limit)
    case None => None
    case Some(p) => if CodeAt(s, p) == code then Some(p) else NextCode(s, p + 4, limit, code)
  }

  /** The places after the picture start codes from byte `i` on. */
  function Pictures(s: seq<byte>, i: nat, limit: nat): seq<nat>
    decreases if i < limit then limit - i else 0, 1
  {
    Rest(s, NextCode(s, i, limit, START_PICTURE), limit)
  }

  /** The pictures still to be listed when the scan has stopped at `r`. */
  function Rest(s: seq<byte>, r: Option<nat>, limit: nat): seq<nat>
    requires r.Some? ==> r.value < limit
    decreases if r.Some? then limit - r.value else 0, 0
  {
    if r.Some? then [r.value + 4] + Pictures(s, r.value + 6, limit) else []
  }

  datatype Intra = Intra(frame: nat, index: nat)

  /** The intra pictures among `pics`, numbered from `frame`. */
  function IntraAmong(s: seq<byte>, pics: seq<nat>, frame: nat): seq<Intra>
  {
    if pics == [] then []
    else
      (if KindAt(s, pics[0]) == PICTURE_TYPE_I then [Intra(frame, pics[0] * 8)] else [])
      + IntraAmong(s, pics[1..], frame + 1)
  }

  // ---- The coding type

  /** The type lies in the second byte after the start code. */
  lemma KindInByte(s: seq<byte>, pos: nat)
    ensures KindAt(s, pos) == Low(Shr(ByteAt(s, pos + 1), 3), 3)
  {
    BitsInByte(s, pos + 1, 2, 3);
  }

  lemma TypeOfByte(s: seq<byte>, pos: nat)
    ensures ByteAt(s, pos + 1) == 8 ==> KindAt(s, pos) == PICTURE_TYPE_I
    ensures ByteAt(s, pos + 1) == 16 ==> KindAt(s, pos) == 2
  {
    KindInByte(s, pos);
  }

  // ---- What the scan meets

  lemma PicturesUnfold(s: seq<byte>, i: nat, limit: nat)
    ensures Pictures(s, i, limit) ==
            match FirstPrefix(s, i, limit)
            case None => []
            case Some(p) =>
              if CodeAt(s, p) == START_PICTURE then [p + 4] + Pictures(s, p + 6, limit) else Pictures(s, p + 4, limit)
  {
  }

  /** The stops with a picture start code, read as pictures. */
  function Select(s: seq<byte>, stops: seq<nat>): seq<nat>
  {
    if stops == [] then []
    else if CodeAt(s, stops[0]) == START_PICTURE then [stops[0] + 4] + Select(s, stops[1..])
    else Select(s, stops[1..])
  }

  lemma {:induction false} PicturesAreStops(s: seq<byte>, i: nat, limit: nat)
    ensures Pictures(s, i, limit) == Select(s, Stops(s, i, limit))
    decreases limit - i
  {
    PicturesUnfold(s, i, limit);
    var r := FirstPrefix(s, i, limit);
    if r.Some? {
      var next := if CodeAt(s, r.value) == START_PICTURE then r.value + 6 else r.value + 4;
      PicturesAreStops(s, next, limit);
      assert ([r.value] + Stops(s, next, limit))[1..] == Stops(s, next, limit);
    }
  }

  /** Every start code is met, unless it begins inside the bytes that the scan skips after an earlier one. */
  lemma {:induction false} ScanComplete(s: seq<byte>, i: nat, limit: nat, p: nat)
    requires i <= p < limit && PrefixAt(s, p)
    ensures p in Stops(s, i, limit) || exists q :: q in Stops(s, i, limit) && q < p < q + 6
    decreases limit - i
  {
    FirstPrefixIsFirst(s, i, limit, p);
    var q := FirstPrefix(s, i, limit).value;
    var next := if CodeAt(s, q) == START_PICTURE then q + 6 else q + 4;
    assert Stops(s, i, limit) == [q] + Stops(s, next, limit);
    assert q in Stops(s, i, limit);
    if next <= p {
      ScanComplete(s, next, limit, p);
      if p !in Stops(s, next, limit) {
        var q' :| q' in Stops(s, next, limit) && q' < p < q' + 6;
        assert q' in Stops(s, i, limit);
      }
    }
  }

  lemma {:induction false} PicturesFrom(s: seq<byte>, i: nat, limit: nat)
    ensures forall k :: 0 <= k < |Pictures(s, i, limit)| ==> Pictures(s, i, limit)[k] >= i + 4
    ensures forall j, k :: 0 <= j < k < |Pictures(s, i, limit)| ==> Pictures(s, i, limit)[j] < Pictures(s, i, limit)[k]
    decreases limit - i
  {
    var r := NextCode(s, i, limit, START_PICTURE);
    if r.Some? {
      PicturesFrom(s, r.value + 6, limit);
      assert Pictures(s, i, limit) == [r.value + 4] + Pictures(s, r.value + 6, limit);
    }
  }

  /** Entries of the index: the k-th picture is listed, with its number and position, exactly if it is intra coded. */
  lemma {:induction false} IntraExactly(s: seq<byte>, pics: seq<nat>, frame: nat, e: Intra)
    ensures e in IntraAmong(s, pics, frame) <==>
            frame <= e.frame < frame + |pics| && KindAt(s, pics[e.frame - frame]) == PICTURE_TYPE_I
            && e.index == pics[e.frame - frame] * 8
  {
    if pics != [] {
      IntraExactly(s, pics[1..], frame + 1, e);
      if e.frame > frame && e.frame < frame + |pics| {
        assert pics[1..][e.frame - (frame + 1)] == pics[e.frame - frame];
      }
    }
  }

  ghost predicate Increasing(entries: seq<Intra>)
  {
    forall j, k :: 0 <= j < k < |entries| ==> entries[j].frame < entries[k].frame && entries[j].index < entries[k].index
  }

  lemma {:induction false} IndexIncreases(s: seq<byte>, pics: seq<nat>, frame: nat)
    requires forall j, k :: 0 <= j < k < |pics| ==> pics[j] < pics[k]
    ensures Increasing(IntraAmong(s, pics, frame))
    ensures forall k :: 0 <= k < |IntraAmong(s, pics, frame)| ==> IntraAmong(s, pics, frame)[k].frame >= frame
    ensures pics != [] ==> forall k :: 0 <= k < |IntraAmong(s, pics, frame)| ==>
              IntraAmong(s, pics, frame)[k].index >= pics[0] * 8
  {
    if pics != [] {
      IndexIncreases(s, pics[1..], frame + 1);
    }
  }

  // ---- The player

  function Listed(entries: seq<Intra>, frame: nat, pos: nat, kind: nat): seq<Intra>
  {
    if kind == PICTURE_TYPE_I then entries + [Intra(frame, pos * 8)] else entries
  }

  lemma ListFirst(entries: seq<Intra>, frame: nat, s: seq<byte>, pos: nat, later: seq<nat>)
    ensures entries + IntraAmong(s, [pos] + later, frame) == Listed(entries, frame, pos, KindAt(s, pos))
              + IntraAmong(s, later, frame + 1)
  {
    assert ([pos] + later)[1..] == later;
    Assoc(entries, [Intra(frame, pos * 8)], IntraAmong(s, later, frame + 1));
    Unit(IntraAmong(s, later, frame + 1));
  }

  /** The list and the number of pictures agree with the scan, of which `rest` is still to come. */
  datatype Side = Count | Listing

  ghost predicate Agrees(k: Side, s: seq<byte>, entries: seq<Intra>, frame: nat, rest: seq<nat>, before: seq<Intra>,
                         pics: seq<nat>)
  {
    match k
    case Count => frame + |rest| == |pics|
    case Listing => entries + IntraAmong(s, rest, frame) == before + IntraAmong(s, pics, 0)
  }

  ghost predicate Progress(s: seq<byte>, entries: seq<Intra>, frame: nat, rest: seq<nat>, before: seq<Intra>,
                           pics: seq<nat>)
  {
    forall k :: Agrees(k, s, entries, frame, rest, before, pics)
  }

  lemma NextEntry(s: seq<byte>, entries: seq<Intra>, frame: nat, pos: nat, rest: seq<nat>, later: seq<nat>,
                  before: seq<Intra>, pics: seq<nat>)
    requires Progress(s, entries, frame, rest, before, pics) && rest == [pos] + later
    ensures Progress(s, Listed(entries, frame, pos, KindAt(s, pos)), frame + 1, later, before, pics)
  {
    assert Agrees(Count, s, entries, frame, rest, before, pics)
           && Agrees(Listing, s, entries, frame, rest, before, pics);
    ListFirst(entries, frame, s, pos, later);
  }

  lemma ProgressStep(s: seq<byte>, entries: seq<Intra>, frame: nat, p: nat, limit: nat, before: seq<Intra>,
                     pics: seq<nat>)
    requires p < limit && Progress(s, entries, frame, Rest(s, Some(p), limit), before, pics)
    ensures Progress(s, Listed(entries, frame, p + 4, KindAt(s, p + 4)), frame + 1,
                     Rest(s, NextCode(s, p + 6, limit, START_PICTURE), limit), before, pics)
  {
    NextEntry(s, entries, frame, p + 4, Rest(s, Some(p), limit), Pictures(s, p + 6, limit), before, pics);
  }

  lemma ProgressEnd(s: seq<byte>, entries: seq<Intra>, frame: nat, before: seq<Intra>, pics: seq<nat>)
    requires Progress(s, entries, frame, [], before, pics)
    ensures frame == |pics| && entries == before + IntraAmong(s, pics, 0)
  {
    assert Agrees(Count, s, entries, frame, [], before, pics) && Agrees(Listing, s, entries, frame, [], before, pics);
    Unit(entries);
  }

  // ---- Seeking

  /** How many entries from the first one on are not behind the frame: where the search stops. */
  function Passed(entries: seq<Intra>, frame: int): (n: nat)
    ensures n <= |entries|
  {
    if entries != [] && entries[0].frame <= frame then 1 + Passed(entries[1..], frame) else 0
  }

  lemma {:induction false} PassedExactly(entries: seq<Intra>, frame: int)
    ensures forall k :: 0 <= k < Passed(entries, frame) ==> entries[k].frame <= frame
    ensures Passed(entries, frame) < |entries| ==> entries[Passed(entries, frame)].frame > frame
  {
    if entries != [] && entries[0].frame <= frame {
      PassedExactly(entries[1..], frame);
      forall k | 0 <= k < Passed(entries, frame) ensures entries[k].frame <= frame {
        assert k > 0 ==> entries[1..][k - 1] == entries[k];
      }
    }
  }

  lemma PassedAt(entries: seq<Intra>, frame: int, n: nat)
    requires n <= |entries| && (forall k :: 0 <= k < n ==> entries[k].frame <= frame)
             && (n < |entries| ==> entries[n].frame > frame)
    ensures Passed(entries, frame) == n
  {
    PassedExactly(entries, frame);
  }

  /** In the list of one file the search finds the closest entry at or before the frame. */
  lemma ClosestBefore(entries: seq<Intra>, frame: int, e: Intra)
    requires Increasing(entries) && e in entries && e.frame <= frame
    ensures Passed(entries, frame) > 0 && e.frame <= entries[Passed(entries, frame) - 1].frame <= frame
  {
    PassedExactly(entries, frame);
    var k :| 0 <= k < |entries| && entries[k] == e;
    assert k < Passed(entries, frame);
  }

  /** The list is shared by all players, so that a second file is listed behind the first. Then the search stays in
      the first file's entries unless the frame is at or after the last of them. */
  lemma AfterSecondLoad(first: seq<Intra>, second: seq<Intra>, frame: int)
    requires Increasing(first) && first != []
    ensures Passed(first + second, frame) ==
            if frame < first[|first| - 1].frame then Passed(first, frame) else |first| + Passed(second, frame)
  {
    var all, last := first + second, |first| - 1;
    PassedExactly(first, frame);
    PassedExactly(second, frame);
    if frame < first[last].frame {
      var n := Passed(first, frame);
      assert n < |first| && all[n] == first[n];
      forall k | 0 <= k < n ensures all[k].frame <= frame {
        assert all[k] == first[k];
      }
      PassedAt(all, frame, n);
    } else {
      var n := Passed(second, frame);
      forall k | 0 <= k < |first| + n ensures all[k].frame <= frame {
        if k < |first| {
          assert all[k] == first[k] && first[k].frame <= first[last].frame;
        } else {
          assert all[k] == second[k - |first|];
        }
      }
      if n < |second| { assert all[|first| + n] == second[n]; }
      PassedAt(all, frame, |first| + n);
    }
  }

  datatype SeekResult = Rejected | Crashed | At(intra: Intra)

  class Player {
    const buffer: Reader
    var intraFrames: seq<Intra>
    var frameCount: nat

    constructor (buffer: Reader)
      ensures this.buffer == buffer && intraFrames == [] && frameCount == 0
    {
      this.buffer, intraFrames, frameCount := buffer, [], 0;
    }

    /** The byte at which the next search for a start code begins. */
    ghost function Here(): nat
      reads buffer
    {
      (buffer.index + 7) / 8
    }

    method FindStartCode(code: int) returns (current: int)
      requires code >= 0
      modifies buffer`index
      ensures var r := NextCode(buffer.bytes[..], old(Here()), buffer.writePos, code);
              if r.Some? then current == code && buffer.index == (r.value + 4) * 8 else current == NOT_FOUND
    {
      ghost var s, limit := buffer.bytes[..], buffer.writePos;
      ghost var target := NextCode(s, Here(), limit, code);
      current := 0;
      while true
        invariant NextCode(s, Here(), limit, code) == target
        decreases limit + 8 - Here()
      {
        ghost var r := FirstPrefix(s, Here(), limit);
        current := buffer.FindNextMPEGStartCode();
        if current == code || current == NOT_FOUND {
          return;
        }
        assert r.Some? && Here() == r.value + 4;
      }
    }

    method CollectIntraFrames()
      modifies this`intraFrames, this`frameCount, buffer`index
      ensures var pics := Pictures(buffer.bytes[..], old(Here()), buffer.writePos);
              intraFrames == old(intraFrames) + IntraAmong(buffer.bytes[..], pics, 0) && frameCount == |pics|
    {
      ghost var s, limit := buffer.bytes[..], buffer.writePos;
      ghost var pics := Pictures(s, Here(), limit);
      ghost var r := NextCode(s, Here(), limit, START_PICTURE);
      var frame := 0;
      var code := FindStartCode(START_PICTURE);
      while code != NOT_FOUND
        invariant code == NOT_FOUND <==> r.None?
        invariant r.Some? ==> r.value < limit && buffer.index == (r.value + 4) * 8
        invariant Progress(s, intraFrames, frame, Rest(s, r, limit), old(intraFrames), pics)
        decreases if r.Some? then limit - r.value else 0
      {
        ghost var p := r.value;
        ProgressStep(s, intraFrames, frame, p, limit, old(intraFrames), pics);
        code := ListAndGoOn(frame, p);
        frame := frame + 1;
        r := NextCode(s, p + 6, limit, START_PICTURE);
      }
      ProgressEnd(s, intraFrames, frame, old(intraFrames), pics);
      frameCount := frame;
    }

    /** The body of the loop and the test for the next iteration. */
    method ListAndGoOn(frame: nat, ghost p: nat) returns (code: int)
      requires buffer.index == (p + 4) * 8
      modifies this`intraFrames, buffer`index
      ensures intraFrames == Listed(old(intraFrames), frame, p + 4, KindAt(buffer.bytes[..], p + 4))
      ensures var r := NextCode(buffer.bytes[..], p + 6, buffer.writePos, START_PICTURE);
              if r.Some? then code == START_PICTURE && buffer.index == (r.value + 4) * 8 else code == NOT_FOUND
    {
      ListPicture(frame, p + 4);
      code := FindStartCode(START_PICTURE);
    }

    /** Reads the picture type and lists an intra picture. */
    method ListPicture(frame: nat, ghost pos: nat)
      requires buffer.index == pos * 8
      modifies this`intraFrames, buffer`index
      ensures intraFrames == Listed(old(intraFrames), frame, pos, KindAt(buffer.bytes[..], pos))
      ensures Here() == pos + 2
    {
      buffer.Advance(10);
      var kind := buffer.GetBits(3);
      if kind == PICTURE_TYPE_I {
        intraFrames := intraFrames + [Intra(frame, buffer.index - 13)];
      }
    }

    /** `seekToFrame` up to the jump. With a first entry behind the request the source dereferences null. */
    method SeekToFrame(seekFrame: int) returns (r: SeekResult)
      ensures r.Rejected? <==> seekFrame < 0 || seekFrame >= frameCount || intraFrames == []
      ensures r.Crashed? <==> 0 <= seekFrame < frameCount && intraFrames != [] && intraFrames[0].frame > seekFrame
      ensures r.At? ==> Passed(intraFrames, seekFrame) > 0 && r.intra == intraFrames[Passed(intraFrames, seekFrame) - 1]
      ensures r.At? && Increasing(intraFrames) ==>
                r.intra.frame <= seekFrame && forall e :: e in intraFrames && e.frame <= seekFrame ==>
                    e.frame <= r.intra.frame
    {
      if seekFrame < 0 || seekFrame >= frameCount || |intraFrames| == 0 {
        return Rejected;
      }
      r := Crashed;
      var i := 0;
      while i < |intraFrames| && intraFrames[i].frame <= seekFrame
        invariant 0 <= i <= |intraFrames|
        invariant if i == 0 then r == Crashed else r == At(intraFrames[i - 1])
        invariant forall k :: 0 <= k < i ==> intraFrames[k].frame <= seekFrame
      {
        r := At(intraFrames[i]);
        i := i + 1;
      }
      PassedAt(intraFrames, seekFrame, i);
      if r.At? && Increasing(intraFrames) {
        forall e | e in intraFrames && e.frame <= seekFrame ensures e.frame <= r.intra.frame {
          ClosestBefore(intraFrames, seekFrame, e);
        }
      }
    }
  }

  /** `loadCallback` of a seekable video, as far as the index goes. */
  method Load(file: seq<byte>) returns (player: Player)
    ensures player.intraFrames == IntraAmong(file, Pictures(file, 0, |file|), 0)
    ensures player.frameCount == |Pictures(file, 0, |file|)| && Increasing(player.intraFrames)
  {
    var bytes := new byte[|file|](i requires 0 <= i < |file| => file[i]);
    assert bytes[..] == file;
    var reader := new Reader(bytes);
    player := new Player(reader);
    player.CollectIntraFrames();
    PicturesFrom(file, 0, |file|);
    IndexIncreases(file, Pictures(file, 0, |file|), 0);
  }

  // ---- A file that does not begin with an intra picture

  /** A predicted picture and an intra picture. */
  const FILE: seq<byte> := [0, 0, 1, 0, 0, 16, 0, 0, 1, 0, 0, 8]

  lemma PictureHere(s: seq<byte>, i: nat, limit: nat)
    requires i < limit && PrefixAt(s, i) && CodeAt(s, i) == START_PICTURE
    ensures Pictures(s, i, limit) == [i + 4] + Pictures(s, i + 6, limit)
  {
    assert FirstPrefix(s, i, limit) == Some(i);
  }

  lemma NoPictures(s: seq<byte>, i: nat, limit: nat)
    requires i >= limit
    ensures Pictures(s, i, limit) == []
  {
  }

  lemma TwoPictures(s: seq<byte>, a: nat, b: nat, limit: nat)
    requires a < b == a + 6 < limit <= b + 6 && PrefixAt(s, a) && PrefixAt(s, b)
    requires CodeAt(s, a) == START_PICTURE && CodeAt(s, b) == START_PICTURE
    ensures Pictures(s, a, limit) == [a + 4, b + 4]
  {
    assert Pictures(s, b + 6, limit) == [] by { NoPictures(s, b + 6, limit); }
    assert Pictures(s, b, limit) == [b + 4] by { PictureHere(s, b, limit); }
    PictureHere(s, a, limit);
  }

  lemma OnlySecond(s: seq<byte>, a: nat, b: nat)
    requires ByteAt(s, a + 1) == 16 && ByteAt(s, b + 1) == 8
    ensures IntraAmong(s, [a, b], 0) == [Intra(1, b * 8)]
  {
    TypeOfByte(s, a);
    TypeOfByte(s, b);
    assert [a, b][1..] == [b] && [b][1..] == [];
    assert IntraAmong(s, [b], 1) == [Intra(1, b * 8)];
  }

  /** Its first frame cannot be reached: the search ends before it has begun. */
  method SeekCrashes(file: seq<byte>) returns (r: SeekResult)
    requires file == FILE
    ensures r == Crashed
  {
    TwoPictures(file, 0, 6, |file|);
    OnlySecond(file, 4, 10);
    var player := Load(file);
    r := player.SeekToFrame(0);
  }
}
