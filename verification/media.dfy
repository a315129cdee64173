/**
  The container walker: a depth-first descent over ISO base media file format
  boxes (ISO/IEC 14496-12, section 4.2) that reads each box header, resolves
  the 32-bit, "to end of file" and 64-bit size forms, descends into 'moov',
  hands 'udta' to the user-data item loop, and always re-seeks to the end of
  the box before reading its next sibling.

  The pure functions StepBox, Level, StepItem and Udta are the specification;
  the class MediaReader does the same work on a cursor field and a metadata
  log field, and its methods are proved to agree with them.
 */
module Media {
  import opened Bytes
  import opened Exif
  import Iso6709

  /** A walk that had already written done before it reached the rest. */
  function Resumed(done: seq<Entry>, rest: Outcome): Outcome
  {
    Outcome(done + rest.writes, rest.end)
  }

  /** Box and item type codes, big-endian. */
  const MOOV: nat := 0x6D6F6F76
  const UDTA: nat := 0x75647461
  const XYZ: nat := 0xA978797A

  /** What a walk wrote and where it left the cursor. */
  datatype Outcome = Outcome(writes: seq<Entry>, end: int)

  /** A resolved box: its size without the header, and the position right after the header. */
  datatype Sized = Sized(atomSize: nat, basePos: int)

  /**
    The box size as the walker resolves it, in size_t arithmetic: a declared
    0 stands for the whole source size (nothing is subtracted), a declared 1
    for the 64-bit size that follows minus 16, anything else for the
    declared size minus 8. Both subtractions wrap modulo 2^64.
   */
  function ResolveSize(src: seq<byte>, declared: nat, p: int): (z: Sized)
    requires 0 <= p <= |src|
    ensures p <= z.basePos <= |src|
    ensures declared == 0 ==> z == Sized(|src|, p)
    ensures declared == 1 ==> z == Sized((BigEndian(src, p, 8) - 16) % TWO64, Advance(src, p, 8))
    ensures declared > 1 ==> z == Sized((declared - 8) % TWO64, p)
  {
    if declared == 0 then Sized(|src|, p)
    else if declared == 1 then Sized((BigEndian(src, p, 8) - 16) % TWO64, Advance(src, p, 8))
    else Sized((declared - 8) % TWO64, p)
  }

  /** basePos + atomSize, added as unsigned 64-bit numbers and passed on as a signed 64-bit offset. */
  function BoxEnd(z: Sized): int
  {
    Signed64((z.basePos + z.atomSize) % TWO64)
  }

  /** One box visited at header position h: either the type code read as 0, or the box was handled and the cursor re-seeked. */
  datatype BoxStep =
    | ZeroType(end: int)
    | Visited(fourCC: nat, size: Sized, writes: seq<Entry>, seek: SeekResult)
  {
    /** What the step wrote: nothing for a zero type code. */
    function Written(): seq<Entry>
    {
      if ZeroType? then [] else writes
    }

    /** Where the step left the cursor. */
    function Cursor(): int
    {
      if ZeroType? then end else seek.pos
    }
  }

  /** The stop test of the source's loop: the seek failed (or returned 0), or the cursor reached rangeEnd or the end of the source. */
  predicate AsWrittenContinues(sk: SeekResult, rangeEnd: int, size: int)
  {
    sk.rc > 0 && sk.pos < rangeEnd && sk.pos < size
  }

  /** The header position of the next sibling as the source's loop chooses it, or None when the level stops. */
  function AsWrittenNextBox(s: Source, h: int, rangeEnd: int): (next: Option<int>)
    requires 0 <= h <= |s.bytes|
    ensures next.Some? ==> 0 <= next.value < |s.bytes|
  {
    var st := StepBox(s, h);
    if st.Visited? && AsWrittenContinues(st.seek, rangeEnd, |s.bytes|) then Some(st.seek.pos) else None
  }

  /**
    The header position of the next sibling as the model chooses it: the
    source's test, and the cursor must also have moved past the header of
    the box just visited. Every sibling therefore starts strictly later.
   */
  function NextBox(s: Source, h: int, rangeEnd: int): (next: Option<int>)
    requires 0 <= h <= |s.bytes|
    ensures next.Some? ==> h < next.value < |s.bytes|
    ensures next.Some? ==> StepBox(s, h).Visited? && next.value == StepBox(s, h).seek.pos
    decreases |s.bytes| - h, 2
  {
    var st := StepBox(s, h);
    if st.Visited? && AsWrittenContinues(st.seek, rangeEnd, |s.bytes|) && st.seek.pos > h then Some(st.seek.pos) else None
  }

  function StepBox(s: Source, h: int): (r: BoxStep)
    requires 0 <= h <= |s.bytes|
    ensures r.ZeroType? ==> h <= r.end <= |s.bytes|
    ensures r.Visited? ==> 0 <= r.seek.pos <= |s.bytes|
    ensures r.Visited? ==> r.fourCC != 0 && h < r.size.basePos
    ensures r.Visited? && r.fourCC != MOOV && r.fourCC != UDTA ==> r.writes == []
    decreases |s.bytes| - h, 1
  {
    var src := s.bytes;
    var declared := BigEndian(src, h, 4);
    var p1 := Advance(src, h, 4);
    var fourCC := BigEndian(src, p1, 4);
    var p2 := Advance(src, p1, 4);
    if fourCC == 0 then ZeroType(p2)
    else
      NonZeroReadStartsInside(src, p1, 4);
      var z := ResolveSize(src, declared, p2);
      var end := BoxEnd(z);
      var inner := BoxContents(s, fourCC, z.basePos, end);
      Visited(fourCC, z, inner.writes, Seek(s, inner.end, end))
  }

  /** The handling of a box's contents by type: 'moov' is descended into, 'udta' walked item by item, anything else skipped. */
  function BoxContents(s: Source, fourCC: nat, basePos: int, end: int): (o: Outcome)
    requires 0 <= basePos <= |s.bytes|
    ensures fourCC != MOOV && fourCC != UDTA ==> o == Outcome([], basePos)
    decreases |s.bytes| - basePos + 1, 0
  {
    if fourCC == MOOV then Level(s, basePos, end)
    else if fourCC == UDTA then Udta(s, basePos, end)
    else Outcome([], basePos)
  }

  /** StepBox written out for a box whose type code is not 0. */
  lemma StepBoxVisited(s: Source, h: int)
    requires 0 <= h <= |s.bytes|
    requires BigEndian(s.bytes, Advance(s.bytes, h, 4), 4) != 0
    ensures var src := s.bytes;
            var p2 := Advance(src, Advance(src, h, 4), 4);
            var fourCC := BigEndian(src, Advance(src, h, 4), 4);
            var z := ResolveSize(src, BigEndian(src, h, 4), p2);
            var inner := BoxContents(s, fourCC, z.basePos, BoxEnd(z));
            StepBox(s, h) == Visited(fourCC, z, inner.writes, Seek(s, inner.end, BoxEnd(z)))
  {
  }

  /** All boxes of one level, starting with the box whose header is at p, until the level stops. */
  function Level(s: Source, p: int, rangeEnd: int): (o: Outcome)
    requires 0 <= p <= |s.bytes|
    ensures 0 <= o.end <= |s.bytes|
    decreases |s.bytes| - p, 3
  {
    var st := StepBox(s, p);
    match NextBox(s, p, rangeEnd)
    case None => Outcome(st.Written(), st.Cursor())
    case Some(q) =>
      var rest := Level(s, q, rangeEnd);
      Outcome(st.Written() + rest.writes, rest.end)
  }

  /** Level taken one box at a time. */
  lemma LevelUnfold(s: Source, h: int, rangeEnd: int)
    requires 0 <= h <= |s.bytes|
    ensures var st := StepBox(s, h);
            && (NextBox(s, h, rangeEnd).None? ==> Level(s, h, rangeEnd) == Outcome(st.Written(), st.Cursor()))
            && (NextBox(s, h, rangeEnd).Some? ==>
                  var q := NextBox(s, h, rangeEnd).value;
                  Level(s, h, rangeEnd) == Outcome(st.Written() + Level(s, q, rangeEnd).writes, Level(s, q, rangeEnd).end))
  {
  }

  /** Bytes read as Latin-1 text. */
  function Latin1(bs: seq<byte>): (t: string)
    ensures |t| == |bs|
    ensures forall i :: 0 <= i < |bs| ==> t[i] as int == bs[i] as int
  {
    seq(|bs|, i requires 0 <= i < |bs| => (bs[i] as int) as char)
  }

  /**
    The location item's text at p: a 16-bit length len and a 16-bit language
    code that is skipped come first, then the len bytes of the text; a source
    that ends early gives the text up to its end, and one that ends inside
    the two fields gives an empty text.
   */
  function XyzText(src: seq<byte>, p: int): (text: seq<byte>)
    requires 0 <= p <= |src|
    ensures var len := BigEndian(src, p, 2);
            p + 4 + len <= |src| ==> text == src[p + 4..p + 4 + len]
    ensures var len := BigEndian(src, p, 2);
            p + 4 <= |src| < p + 4 + len ==> text == src[p + 4..]
    ensures |src| < p + 4 ==> text == []
  {
    var strSize := BigEndian(src, p, 2);
    var p1 := Advance(src, p, 2);
    var p2 := Advance(src, p1, 2);
    var p3 := Advance(src, p2, strSize);
    src[p2..p3]
  }

  /** The location item at p: the four location writes for its text, and the cursor just past the text. */
  function XyzItem(src: seq<byte>, p: int): (o: Outcome)
    requires 0 <= p <= |src|
    ensures o.writes == Iso6709.LocationEntries(Latin1(XyzText(src, p)))
    ensures var len := BigEndian(src, p, 2);
            o.end == if p + 4 + len <= |src| then p + 4 + len else |src|
  {
    var strSize := BigEndian(src, p, 2);
    var p1 := Advance(src, p, 2);
    var p2 := Advance(src, p1, 2);
    var p3 := Advance(src, p2, strSize);
    Outcome(Iso6709.LocationEntries(Latin1(XyzText(src, p))), p3)
  }

  /**
    One user-data item at p: its 32-bit size and type, the location handler
    for the 0xA9 'x' 'y' 'z' type, then a seek to basePos + itemSize where
    basePos is already past the 8-byte item header. The seek's result is
    not looked at.
   */
  function StepItem(s: Source, p: int): (o: Outcome)
    requires 0 <= p <= |s.bytes|
    ensures p <= o.end <= |s.bytes|
    ensures o.end < |s.bytes| ==> p < o.end
  {
    var src := s.bytes;
    var itemSize := BigEndian(src, p, 4);
    var p1 := Advance(src, p, 4);
    var itemType := BigEndian(src, p1, 4);
    var basePos := Advance(src, p1, 4);
    var item := if itemType == XYZ then XyzItem(src, basePos) else Outcome([], basePos);
    Outcome(item.writes, Seek(s, item.end, basePos + itemSize).pos)
  }

  /** The position of the next item as the source's loop chooses it: it goes on while the cursor is before rangeEnd. */
  function AsWrittenNextItem(s: Source, p: int, rangeEnd: int): (next: Option<int>)
    requires 0 <= p <= |s.bytes|
    ensures next.Some? ==> p <= next.value <= |s.bytes| && next.value < rangeEnd
  {
    var q := StepItem(s, p).end;
    if q < rangeEnd then Some(q) else None
  }

  /** The position of the next item as the model chooses it: the loop also stops at the end of the source, so every item starts strictly later. */
  function NextItem(s: Source, p: int, rangeEnd: int): (next: Option<int>)
    requires 0 <= p <= |s.bytes|
    ensures next.Some? ==> p < next.value < |s.bytes| && next.value < rangeEnd
    ensures next.None? ==> StepItem(s, p).end >= rangeEnd || StepItem(s, p).end == |s.bytes|
  {
    var q := StepItem(s, p).end;
    if q < rangeEnd && q < |s.bytes| then Some(q) else None
  }

  /**
    All items of a user-data box, starting with the item at p. The walk ends
    at or past rangeEnd, or at the end of the source.
   */
  function Udta(s: Source, p: int, rangeEnd: int): (o: Outcome)
    requires 0 <= p <= |s.bytes|
    ensures p <= o.end <= |s.bytes|
    ensures o.end >= rangeEnd || o.end == |s.bytes|
    decreases |s.bytes| - p
  {
    var st := StepItem(s, p);
    match NextItem(s, p, rangeEnd)
    case None => st
    case Some(q) =>
      var rest := Udta(s, q, rangeEnd);
      Outcome(st.writes + rest.writes, rest.end)
  }

  /** Udta taken one item at a time. */
  lemma UdtaUnfold(s: Source, p: int, rangeEnd: int)
    requires 0 <= p <= |s.bytes|
    ensures var st := StepItem(s, p);
            && (NextItem(s, p, rangeEnd).None? ==> Udta(s, p, rangeEnd) == st)
            && (NextItem(s, p, rangeEnd).Some? ==>
                  Udta(s, p, rangeEnd) ==
                  Outcome(st.writes + Udta(s, st.end, rangeEnd).writes, Udta(s, st.end, rangeEnd).end))
  {
  }

  /** The last item of a user-data walk: the one after which the cursor is at or past rangeEnd, or at the end of the source. */
  lemma UdtaLast(s: Source, p: int, rangeEnd: int)
    requires 0 <= p <= |s.bytes|
    requires StepItem(s, p).end >= rangeEnd || StepItem(s, p).end >= |s.bytes|
    ensures Udta(s, p, rangeEnd) == StepItem(s, p)
  {
    UdtaUnfold(s, p, rangeEnd);
  }

  /** Any other item: its writes come first, then those of the walk from where it left the cursor. */
  lemma UdtaNext(s: Source, p: int, rangeEnd: int)
    requires 0 <= p <= |s.bytes|
    requires StepItem(s, p).end < rangeEnd && StepItem(s, p).end < |s.bytes|
    ensures var q := StepItem(s, p).end;
            Udta(s, p, rangeEnd) == Outcome(StepItem(s, p).writes + Udta(s, q, rangeEnd).writes, Udta(s, q, rangeEnd).end)
  {
    UdtaUnfold(s, p, rangeEnd);
  }

  /**
    The user-data walk from p0, once it has reached the item at h with done
    written so far, goes on with that item: its writes are added to done, and
    either the walk ends where the item left the cursor or it resumes there.
   */
  lemma UdtaResume(s: Source, p0: int, h: int, rangeEnd: int, done: seq<Entry>)
    requires 0 <= p0 <= |s.bytes| && 0 <= h <= |s.bytes|
    requires Udta(s, p0, rangeEnd) == Resumed(done, Udta(s, h, rangeEnd))
    ensures var q := StepItem(s, h).end;
            var ws := StepItem(s, h).writes;
            && ((q >= rangeEnd || q >= |s.bytes|) ==> Udta(s, p0, rangeEnd) == Outcome(done + ws, q))
            && ((q < rangeEnd && q < |s.bytes|) ==> Udta(s, p0, rangeEnd) == Resumed(done + ws, Udta(s, q, rangeEnd)))
  {
    var q := StepItem(s, h).end;
    if q >= rangeEnd || q >= |s.bytes| {
      UdtaLast(s, h, rangeEnd);
    } else {
      UdtaNext(s, h, rangeEnd);
      AppendAssociates(done, StepItem(s, h).writes, Udta(s, q, rangeEnd).writes);
    }
  }

  /** A zero type code ends the level at once: nothing is dispatched, nothing written, no seek made. */
  lemma ZeroTypeEndsLevel(s: Source, h: int, rangeEnd: int)
    requires 0 <= h <= |s.bytes|
    requires BigEndian(s.bytes, Advance(s.bytes, h, 4), 4) == 0
    ensures NextBox(s, h, rangeEnd).None?
    ensures Level(s, h, rangeEnd) == Outcome([], Advance(s.bytes, Advance(s.bytes, h, 4), 4))
  {
    LevelUnfold(s, h, rangeEnd);
  }

  /**
    For a declared size other than 0 and 1, read with the header starting at
    p - 8, the box ends at p - 8 + declared: the header is part of the size.
    A declared size of 2 to 7 wraps in the subtraction and the end falls
    inside the 8-byte header.
   */
  lemma {:induction false} PlainSizeBoxEnd(src: seq<byte>, declared: nat, p: int)
    requires 0 <= p <= |src| && declared > 1
    requires p + declared < TWO63
    ensures BoxEnd(ResolveSize(src, declared, p)) == p + declared - 8
    ensures declared < 8 ==> BoxEnd(ResolveSize(src, declared, p)) < p
  {
    var z := ResolveSize(src, declared, p);
    if declared >= 8 {
      assert z.atomSize == declared - 8;
    } else {
      assert z.atomSize == declared - 8 + TWO64;
      if p + declared - 8 >= 0 {
        assert (z.basePos + z.atomSize) % TWO64 == p + declared - 8;
      } else {
        assert (z.basePos + z.atomSize) % TWO64 == p + declared - 8 + TWO64;
      }
    }
  }

  /**
    For a declared size of 1 the 64-bit size that follows counts the whole
    16-byte header: the box ends at p - 8 + largesize. A largesize below 16
    wraps in the subtraction and the end falls inside the header.
   */
  lemma {:induction false} LargeSizeBoxEnd(src: seq<byte>, p: int)
    requires 0 <= p && p + 8 <= |src|
    requires p + BigEndian(src, p, 8) < TWO63
    ensures BoxEnd(ResolveSize(src, 1, p)) == p + BigEndian(src, p, 8) - 8
    ensures BigEndian(src, p, 8) < 16 ==> BoxEnd(ResolveSize(src, 1, p)) < ResolveSize(src, 1, p).basePos
  {
    var large := BigEndian(src, p, 8);
    var z := ResolveSize(src, 1, p);
    assert z.basePos == p + 8;
    if large >= 16 {
      assert z.atomSize == large - 16;
    } else {
      assert z.atomSize == large - 16 + TWO64;
      if p + large - 8 >= 0 {
        assert (z.basePos + z.atomSize) % TWO64 == p + large - 8;
      } else {
        assert (z.basePos + z.atomSize) % TWO64 == p + large - 8 + TWO64;
      }
    }
  }

  /** A declared size of 0 adds the whole source size to the position after the header, which lies past the end of the source. */
  lemma ZeroSizeBoxEnd(src: seq<byte>, p: int)
    requires 0 < p <= |src| && p + |src| < TWO63
    ensures BoxEnd(ResolveSize(src, 0, p)) == p + |src| > |src|
  {
  }

  /** So a box declared with size 0 is always the last of its level: the seek to its end fails. */
  lemma ZeroSizeBoxIsLast(s: Source, h: int, rangeEnd: int)
    requires 0 <= h <= |s.bytes| && 2 * |s.bytes| < TWO63
    requires BigEndian(s.bytes, h, 4) == 0 && BigEndian(s.bytes, Advance(s.bytes, h, 4), 4) != 0
    ensures StepBox(s, h).Visited? && StepBox(s, h).seek.rc < 0
    ensures NextBox(s, h, rangeEnd).None?
  {
    var src := s.bytes;
    var p1 := Advance(src, h, 4);
    NonZeroReadStartsInside(src, p1, 4);
    var p2 := Advance(src, p1, 4);
    ZeroSizeBoxEnd(src, p2);
    StepBoxVisited(s, h);
  }

  /**
    Whatever a box's handler read, the cursor is then sent to the box's
    end: the seek succeeds exactly when the source is seekable and the end
    lies within it, and then the cursor is at the end.
   */
  lemma ResumesAtBoxEnd(s: Source, h: int)
    requires 0 <= h <= |s.bytes|
    requires StepBox(s, h).Visited?
    ensures var st := StepBox(s, h);
            var src := s.bytes;
            && st.size == ResolveSize(src, BigEndian(src, h, 4), Advance(src, Advance(src, h, 4), 4))
            && (st.seek.rc >= 0 <==> s.seekable && 0 <= BoxEnd(st.size) <= |src|)
            && (st.seek.rc >= 0 ==> st.seek.pos == BoxEnd(st.size))
  {
    StepBoxVisited(s, h);
  }

  /**
    An item's basePos is taken after its 8-byte header and the item's size
    is added to it, so the header is counted twice: the next item is looked
    for at p + 8 + itemSize when that lies in the source, and otherwise the
    cursor stays where the item's handler left it.
   */
  lemma UdtaItemStride(s: Source, p: int)
    requires 0 <= p && p + 8 <= |s.bytes|
    ensures var itemSize := BigEndian(s.bytes, p, 4);
            && (s.seekable && p + 8 + itemSize <= |s.bytes| ==> StepItem(s, p).end == p + 8 + itemSize)
            && (BigEndian(s.bytes, p + 4, 4) != XYZ && !(s.seekable && p + 8 + itemSize <= |s.bytes|) ==>
                  StepItem(s, p).end == p + 8)
  {
  }

  /** One item writes the four location entries or nothing. */
  lemma StepItemKeys(s: Source, p: int)
    requires 0 <= p <= |s.bytes|
    ensures KeysOf(StepItem(s, p).writes) <= Iso6709.LocationKeySet
    ensures |StepItem(s, p).writes| == 0 || |StepItem(s, p).writes| == 4
  {
    var src := s.bytes;
    var p1 := Advance(src, p, 4);
    var basePos := Advance(src, p1, 4);
    if BigEndian(src, p1, 4) == XYZ {
      var strSize := BigEndian(src, basePos, 2);
      var p3 := Advance(src, Advance(src, basePos, 2), 2);
      Iso6709.LocationKeys(Latin1(src[p3..Advance(src, p3, strSize)]));
    }
  }

  /** Every write of a user-data walk is a location write. */
  lemma {:induction false} UdtaKeys(s: Source, p: int, rangeEnd: int)
    requires 0 <= p <= |s.bytes|
    ensures KeysOf(Udta(s, p, rangeEnd).writes) <= Iso6709.LocationKeySet
    decreases |s.bytes| - p
  {
    var st := StepItem(s, p);
    StepItemKeys(s, p);
    UdtaUnfold(s, p, rangeEnd);
    match NextItem(s, p, rangeEnd)
    case None =>
      assert Udta(s, p, rangeEnd).writes == st.writes;
    case Some(q) =>
      var rest := Udta(s, q, rangeEnd).writes;
      assert Udta(s, p, rangeEnd).writes == st.writes + rest;
      UdtaKeys(s, q, rangeEnd);
      KeysOfConcat(st.writes, rest);
  }

  /** Every write of one box step is a location write. */
  lemma {:induction false} StepBoxKeys(s: Source, h: int)
    requires 0 <= h <= |s.bytes|
    ensures KeysOf(StepBox(s, h).Written()) <= Iso6709.LocationKeySet
    decreases |s.bytes| - h, 1
  {
    var src := s.bytes;
    var p1 := Advance(src, h, 4);
    if BigEndian(src, p1, 4) != 0 {
      NonZeroReadStartsInside(src, p1, 4);
      StepBoxVisited(s, h);
      var st := StepBox(s, h);
      if st.fourCC == MOOV {
        LevelKeys(s, st.size.basePos, BoxEnd(st.size));
      } else if st.fourCC == UDTA {
        UdtaKeys(s, st.size.basePos, BoxEnd(st.size));
      }
    }
  }

  /** Every write of a level, however deep it descends, is a location write. */
  lemma {:induction false} LevelKeys(s: Source, p: int, rangeEnd: int)
    requires 0 <= p <= |s.bytes|
    ensures KeysOf(Level(s, p, rangeEnd).writes) <= Iso6709.LocationKeySet
    decreases |s.bytes| - p, 3
  {
    StepBoxKeys(s, p);
    LevelUnfold(s, p, rangeEnd);
    match NextBox(s, p, rangeEnd)
    case None =>
    case Some(q) =>
      LevelKeys(s, q, rangeEnd);
      KeysOfConcat(StepBox(s, p).Written(), Level(s, q, rangeEnd).writes);
  }

  /** Extraction: nothing unless the cursor can be put at 0, then one descent over the whole source. */
  function ExtractWrites(s: Source): seq<Entry>
  {
    if s.seekable then Level(s, 0, |s.bytes|).writes else []
  }

  /** Extraction writes nothing from a source that cannot seek, and only the four location keys from any source. */
  lemma ExtractKeys(s: Source)
    ensures !s.seekable ==> ExtractWrites(s) == []
    ensures KeysOf(ExtractWrites(s)) <= Iso6709.LocationKeySet
  {
    if s.seekable {
      LevelKeys(s, 0, |s.bytes|);
    }
  }

  /**
    The model's level loop differs from the source's only where the source
    would seek back to, or before, the header it has just read.
   */
  lemma NextBoxRefinesAsWritten(s: Source, h: int, rangeEnd: int)
    requires 0 <= h <= |s.bytes|
    ensures NextBox(s, h, rangeEnd).Some? ==> AsWrittenNextBox(s, h, rangeEnd) == NextBox(s, h, rangeEnd)
    ensures NextBox(s, h, rangeEnd).None? && AsWrittenNextBox(s, h, rangeEnd).Some? ==>
              AsWrittenNextBox(s, h, rangeEnd).value <= h
  {
  }

  /** The model's item loop differs from the source's only where the source goes on from the end of the source. */
  lemma NextItemRefinesAsWritten(s: Source, p: int, rangeEnd: int)
    requires 0 <= p <= |s.bytes|
    ensures NextItem(s, p, rangeEnd).Some? ==> AsWrittenNextItem(s, p, rangeEnd) == NextItem(s, p, rangeEnd)
    ensures NextItem(s, p, rangeEnd).None? && AsWrittenNextItem(s, p, rangeEnd).Some? ==>
              AsWrittenNextItem(s, p, rangeEnd).value == |s.bytes|
  {
  }

  /**
    A box at header position h > 0 whose size field is 1 and whose 64-bit
    size is 0: the source's level loop seeks back to h and reads the same box
    again, for ever. The model stops after it.
   */
  lemma AsWrittenLevelLoops(s: Source, h: int, rangeEnd: int)
    requires s.seekable && 0 < h < rangeEnd && h + 16 <= |s.bytes| < TWO63
    requires BigEndian(s.bytes, h, 4) == 1 && BigEndian(s.bytes, h + 4, 4) != 0 && BigEndian(s.bytes, h + 8, 8) == 0
    ensures AsWrittenNextBox(s, h, rangeEnd) == Some(h)
    ensures NextBox(s, h, rangeEnd) == None
  {
    var src := s.bytes;
    assert Advance(src, h, 4) == h + 4 && Advance(src, h + 4, 4) == h + 8;
    StepBoxVisited(s, h);
    LargeSizeBoxEnd(src, h + 8);
  }

  /**
    A user-data range that reaches past the end of the source (a 'udta'
    box whose declared size is larger than what is left): once the item
    loop is at the end, every item reads as size 0, and the source's loop
    seeks to where it already is, for ever. The model stops there.
   */
  lemma AsWrittenUdtaLoops(s: Source, rangeEnd: int)
    requires |s.bytes| < rangeEnd
    ensures AsWrittenNextItem(s, |s.bytes|, rangeEnd) == Some(|s.bytes|)
    ensures NextItem(s, |s.bytes|, rangeEnd) == None
  {
    BigEndianPastEnd(s.bytes, |s.bytes|, 4);
  }

  class MediaReader {
    const source: Source
    var pos: int
    var md: seq<Entry>

    ghost predicate Valid()
      reads this
    {
      0 <= pos <= |source.bytes|
    }

    constructor (source: Source, md: seq<Entry>)
      ensures Valid() && this.source == source && pos == 0 && this.md == md
    {
      this.source := source;
      pos := 0;
      this.md := md;
    }

    /** avio_rb16 */
    method ReadU16() returns (v: nat)
      requires Valid()
      modifies this`pos
      ensures Valid()
      ensures v == BigEndian(source.bytes, old(pos), 2) && pos == Advance(source.bytes, old(pos), 2)
    {
      v := BigEndian(source.bytes, pos, 2);
      pos := Advance(source.bytes, pos, 2);
    }

    /** avio_rb32 */
    method ReadU32() returns (v: nat)
      requires Valid()
      modifies this`pos
      ensures Valid()
      ensures v == BigEndian(source.bytes, old(pos), 4) && pos == Advance(source.bytes, old(pos), 4)
    {
      v := BigEndian(source.bytes, pos, 4);
      pos := Advance(source.bytes, pos, 4);
    }

    /** avio_rb64 */
    method ReadU64() returns (v: nat)
      requires Valid()
      modifies this`pos
      ensures Valid()
      ensures v == BigEndian(source.bytes, old(pos), 8) && pos == Advance(source.bytes, old(pos), 8)
    {
      v := BigEndian(source.bytes, pos, 8);
      pos := Advance(source.bytes, pos, 8);
    }

    /** avio_read: up to n bytes, fewer at the end of the source. */
    method ReadBytes(n: nat) returns (bs: seq<byte>)
      requires Valid()
      modifies this`pos
      ensures Valid()
      ensures pos == Advance(source.bytes, old(pos), n) && bs == source.bytes[old(pos)..pos]
    {
      var q := Advance(source.bytes, pos, n);
      bs := source.bytes[pos..q];
      pos := q;
    }

    /** avio_seek to an absolute position. */
    method SeekTo(target: int) returns (rc: int)
      requires Valid()
      modifies this`pos
      ensures Valid()
      ensures SeekResult(rc, pos) == Seek(source, old(pos), target)
    {
      var r := Seek(source, pos, target);
      rc, pos := r.rc, r.pos;
    }

    /** MediaReader::extract */
    method Extract()
      requires Valid()
      modifies this
      ensures Valid()
      ensures md == old(md) + ExtractWrites(source)
      ensures !source.seekable ==> pos == old(pos)
      ensures source.seekable ==> pos == Level(source, 0, |source.bytes|).end
    {
      var rc := SeekTo(0);
      if rc != 0 {
        return;
      }
      Decend(|source.bytes|);
    }

    /** MediaReader::decend: the boxes of one level, until the level stops. */
    method Decend(rangeEnd: int)
      requires Valid()
      modifies this
      ensures Valid()
      ensures md == old(md) + Level(source, old(pos), rangeEnd).writes
      ensures pos == Level(source, old(pos), rangeEnd).end
      decreases |source.bytes| - pos, 3
    {
      ghost var done: seq<Entry> := [];
      while true
        invariant Valid() && old(pos) <= pos
        invariant md == old(md) + done
        invariant Level(source, old(pos), rangeEnd).writes == done + Level(source, pos, rangeEnd).writes
        invariant Level(source, old(pos), rangeEnd).end == Level(source, pos, rangeEnd).end
        decreases |source.bytes| - pos
      {
        var h := pos;
        LevelUnfold(source, h, rangeEnd);
        var zeroType, rc := VisitBox();
        if zeroType {
          break;
        }
        ghost var ws := StepBox(source, h).writes;
        AppendAssociates(old(md), done, ws);
        if !(rc > 0 && pos < rangeEnd && pos < |source.bytes| && pos > h) {
          break;
        }
        assert Level(source, h, rangeEnd).writes == ws + Level(source, pos, rangeEnd).writes;
        AppendAssociates(done, ws, Level(source, pos, rangeEnd).writes);
        done := done + ws;
      }
    }

    /** One pass of decend's loop body: header, size resolution, dispatch and the seek to the box end. */
    method VisitBox() returns (zeroType: bool, rc: int)
      requires Valid()
      modifies this
      ensures Valid()
      ensures var st := StepBox(source, old(pos));
              && zeroType == st.ZeroType?
              && (zeroType ==> pos == st.end && md == old(md))
              && (!zeroType ==> md == old(md) + st.writes && rc == st.seek.rc && pos == st.seek.pos)
      decreases |source.bytes| - pos, 1
    {
      var h := pos;
      var declared := ReadU32();
      var fourCC := ReadU32();
      zeroType, rc := fourCC == 0, 0;
      if zeroType {
        return;
      }
      NonZeroReadStartsInside(source.bytes, Advance(source.bytes, h, 4), 4);
      StepBoxVisited(source, h);
      var atomSize := ReadAtomSize(declared);
      var basePos := pos;
      var end := BoxEnd(Sized(atomSize, basePos));
      DispatchBox(fourCC, end);
      ghost var inner := BoxContents(source, fourCC, basePos, end);
      rc := SeekTo(end);
      assert StepBox(source, h) == Visited(fourCC, Sized(atomSize, basePos), inner.writes, SeekResult(rc, pos));
    }

    /** The size resolution of decend: the whole source for 0, the 64-bit largesize for 1, the header subtracted in 64-bit unsigned arithmetic. */
    method ReadAtomSize(declared: nat) returns (atomSize: nat)
      requires Valid()
      modifies this`pos
      ensures Valid()
      ensures Sized(atomSize, pos) == ResolveSize(source.bytes, declared, old(pos))
    {
      if declared == 0 {
        atomSize := |source.bytes|;
      } else if declared == 1 {
        var large := ReadU64();
        atomSize := (large - 16) % TWO64;
      } else {
        atomSize := (declared - 8) % TWO64;
      }
    }

    /** The dispatch of decend on the box type: recurse into 'moov', walk 'udta', skip anything else. */
    method DispatchBox(fourCC: nat, end: int)
      requires Valid()
      modifies this
      ensures Valid()
      ensures md == old(md) + BoxContents(source, fourCC, old(pos), end).writes
      ensures pos == BoxContents(source, fourCC, old(pos), end).end
      decreases |source.bytes| - pos, 4
    {
      if fourCC == MOOV {
        Decend(end);
      } else if fourCC == UDTA {
        HandleUdta(end);
      } else {
        assert md == old(md) + [];
      }
    }

    /** MediaReader::handle_udta, with the end-of-source stop the source lacks. */
    method HandleUdta(rangeEnd: int)
      requires Valid()
      modifies this
      ensures Valid()
      ensures md == old(md) + Udta(source, old(pos), rangeEnd).writes
      ensures pos == Udta(source, old(pos), rangeEnd).end
    {
      ghost var done: seq<Entry> := [];
      while true
        invariant Valid()
        invariant md == old(md) + done
        invariant Udta(source, old(pos), rangeEnd) == Resumed(done, Udta(source, pos, rangeEnd))
        decreases |source.bytes| - pos
      {
        ghost var h := pos;
        VisitItem();
        UdtaResume(source, old(pos), h, rangeEnd, done);
        AppendAssociates(old(md), done, StepItem(source, h).writes);
        done := done + StepItem(source, h).writes;
        if pos >= rangeEnd || pos >= |source.bytes| {
          break;
        }
      }
    }

    /** One pass of handle_udta's loop body: item header, the location handler, the seek past the item. */
    method VisitItem()
      requires Valid()
      modifies this
      ensures Valid()
      ensures md == old(md) + StepItem(source, old(pos)).writes && pos == StepItem(source, old(pos)).end
    {
      var itemSize := ReadU32();
      var itemType := ReadU32();
      var basePos := pos;
      if itemType == XYZ {
        var strSize := ReadU16();
        var _ := ReadU16();
        var raw := ReadBytes(strSize);
        md := md + Iso6709.LocationEntries(Latin1(raw));
      }
      var _ := SeekTo(basePos + itemSize);
    }
  }
}
