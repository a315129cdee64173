/**
  The HEIF writer's own logic around the encoder library: mapping the COLR
  code points of a video stream to the nclx colour profile, laying out the
  planes of a 4:2:0 picture, copying the decoder's rows into the encoder's
  plane buffers, and framing the encoded Exif block.
 */
module Heif {
  import opened Bytes
  import opened Exif

  /** The three code points of a COLR box, as unsigned integers. */
  datatype ColorParams = ColorParams(primaries: nat, transfer: nat, matrix: nat)

  // ---------------------------------------------------------------- colour profile

  /** The nclx colour primaries the writer can produce. */
  datatype Primaries =
    | UnspecifiedPrimaries | Bt709Primaries | Bt601Primaries | Bt2020Primaries
    | SmpteRp431Primaries | SmpteEg432Primaries

  /** The nclx transfer characteristics the writer can produce. */
  datatype Transfer = UnspecifiedTransfer | Bt709Transfer | Smpte240mTransfer | SmpteSt428Transfer

  /** The nclx matrix coefficients the writer can produce. */
  datatype Matrix = UnspecifiedMatrix | Bt709Matrix | Bt470BgMatrix | Smpte240mMatrix | Bt2020NclMatrix

  /** The profile handed to the encoder. */
  datatype NclxProfile = NclxProfile(primaries: Primaries, transfer: Transfer, matrix: Matrix, fullRange: bool)

  /** The primaries lookup table, indexed by code point 0 to 12. */
  const PrimariesTable: seq<Primaries> :=
    [ UnspecifiedPrimaries, Bt709Primaries, UnspecifiedPrimaries, UnspecifiedPrimaries,
      UnspecifiedPrimaries, Bt601Primaries, Bt601Primaries, UnspecifiedPrimaries,
      UnspecifiedPrimaries, Bt2020Primaries, UnspecifiedPrimaries, SmpteRp431Primaries,
      SmpteEg432Primaries ]

  /** A code inside the table selects its entry; any larger code selects entry 0. */
  function PrimariesOf(code: nat): (p: Primaries)
    ensures p in PrimariesTable
    ensures code < |PrimariesTable| ==> p == PrimariesTable[code]
    ensures code >= |PrimariesTable| ==> p == UnspecifiedPrimaries
  {
    if code < |PrimariesTable| then PrimariesTable[code] else PrimariesTable[0]
  }

  /** The transfer characteristics for a COLR code; TransferMapping states the mapping. */
  function TransferOf(code: nat): Transfer
  {
    if code == 1 then Bt709Transfer
    else if code == 7 then Smpte240mTransfer
    else if code == 17 then SmpteSt428Transfer
    else UnspecifiedTransfer
  }

  /** The matrix coefficients for a COLR code; MatrixMapping states the mapping. */
  function MatrixOf(code: nat): Matrix
  {
    if code == 1 then Bt709Matrix
    else if code == 6 then Bt470BgMatrix
    else if code == 7 then Smpte240mMatrix
    else if code == 9 then Bt2020NclMatrix
    else UnspecifiedMatrix
  }

  /** The profile for a COLR triple; full range is set whatever the input. */
  function SetColorProfile(c: ColorParams): (p: NclxProfile)
    ensures p.fullRange
    ensures p.primaries == PrimariesOf(c.primaries)
    ensures p.transfer == TransferOf(c.transfer) && p.matrix == MatrixOf(c.matrix)
  {
    NclxProfile(PrimariesOf(c.primaries), TransferOf(c.transfer), MatrixOf(c.matrix), true)
  }

  /**
    Which primaries codes select which entry: 1 is BT.709-5, 5 and 6 are both
    BT.601-6, 9 is BT.2020/2100, 11 is SMPTE RP 431-2, 12 is SMPTE EG 432-1,
    and every other code, however large, is unspecified.
   */
  lemma PrimariesMapping(code: nat)
    ensures PrimariesOf(code) == Bt709Primaries <==> code == 1
    ensures PrimariesOf(code) == Bt601Primaries <==> code == 5 || code == 6
    ensures PrimariesOf(code) == Bt2020Primaries <==> code == 9
    ensures PrimariesOf(code) == SmpteRp431Primaries <==> code == 11
    ensures PrimariesOf(code) == SmpteEg432Primaries <==> code == 12
    ensures PrimariesOf(code) == UnspecifiedPrimaries <==> code !in {1, 5, 6, 9, 11, 12}
  {
    if code < |PrimariesTable| {
      assert code in {0, 1, 2, 3, 4, 5, 6, 7, 8, 9, 10, 11, 12};
    }
  }

  /** Transfer: 1 is BT.709-5, 7 is SMPTE 240M, 17 is SMPTE ST 428-1, everything else unspecified. */
  lemma TransferMapping(code: nat)
    ensures TransferOf(code) == Bt709Transfer <==> code == 1
    ensures TransferOf(code) == Smpte240mTransfer <==> code == 7
    ensures TransferOf(code) == SmpteSt428Transfer <==> code == 17
    ensures TransferOf(code) == UnspecifiedTransfer <==> code !in {1, 7, 17}
  {
  }

  /**
    Matrix: 1 is BT.709-5, 6 is BT.470-6 System B/G, 7 is SMPTE 240M, 9 is
    BT.2020 non-constant luminance, everything else unspecified.
   */
  lemma MatrixMapping(code: nat)
    ensures MatrixOf(code) == Bt709Matrix <==> code == 1
    ensures MatrixOf(code) == Bt470BgMatrix <==> code == 6
    ensures MatrixOf(code) == Smpte240mMatrix <==> code == 7
    ensures MatrixOf(code) == Bt2020NclMatrix <==> code == 9
    ensures MatrixOf(code) == UnspecifiedMatrix <==> code !in {1, 6, 7, 9}
  {
  }

  /** The smallest COLR code that selects each primaries entry. */
  function PrimariesCode(p: Primaries): (code: nat)
    ensures code < |PrimariesTable| && PrimariesTable[code] == p
    ensures forall k :: 0 <= k < code ==> PrimariesTable[k] != p
  {
    match p
    case UnspecifiedPrimaries => 0
    case Bt709Primaries => 1
    case Bt601Primaries => 5
    case Bt2020Primaries => 9
    case SmpteRp431Primaries => 11
    case SmpteEg432Primaries => 12
  }

  /**
    The lookup is onto and, apart from the shared BT.601-6 entry and the
    unspecified ones, one-to-one: a code that selects a specified entry is
    that entry's own code, or 6.
   */
  lemma PrimariesCodeInverse(p: Primaries, code: nat)
    ensures PrimariesOf(PrimariesCode(p)) == p
    ensures PrimariesOf(code) != UnspecifiedPrimaries ==>
              PrimariesCode(PrimariesOf(code)) == code || code == 6
  {
    PrimariesMapping(code);
  }

  // ---------------------------------------------------------------- plane layout

  /** The decoder's pixel format, as far as the writer distinguishes it. */
  datatype PixelFormat = Yuv420p | Yuvj420p | OtherFormat

  datatype Colorspace = YCbCr | UndefinedColorspace
  datatype Chroma = Chroma420 | UndefinedChroma
  datatype Channel = ChannelY | ChannelCb | ChannelCr

  /** One image plane: its channel, bit depth and size in samples. */
  datatype Plane = Plane(channel: Channel, depth: nat, width: nat, height: nat)

  datatype Layout = Layout(space: Colorspace, chroma: Chroma, planes: seq<Plane>)

  /** Half of n rounded up: the number of chroma samples covering n luma samples. */
  function HalfUp(n: nat): (r: nat)
    ensures n <= 2 * r <= n + 1
  {
    (n + 1) / 2
  }

  /**
    The layout for a frame: both 4:2:0 formats give Y, Cb and Cr planes of
    depth 8, Y at full size and Cb and Cr at half size rounded up; any other
    format gives no planes and an undefined colourspace and chroma.
   */
  function SetHeifColor(format: PixelFormat, width: nat, height: nat): (l: Layout)
    ensures format == OtherFormat <==> |l.planes| == 0
    ensures format == OtherFormat ==> l.space == UndefinedColorspace && l.chroma == UndefinedChroma
    ensures format != OtherFormat ==> l.space == YCbCr && l.chroma == Chroma420 && |l.planes| == 3
  {
    match format
    case OtherFormat => Layout(UndefinedColorspace, UndefinedChroma, [])
    case _ =>
      var cb := Plane(ChannelCb, 8, HalfUp(width), HalfUp(height));
      Layout(YCbCr, Chroma420, [Plane(ChannelY, 8, width, height), cb, cb.(channel := ChannelCr)])
  }

  /**
    In a 4:2:0 layout the planes are Y, Cb, Cr in that order, all of depth 8;
    Y has the frame's size, and Cb and Cr share the smallest size whose 2x2
    subsampling still covers every luma sample.
   */
  lemma Layout420(format: PixelFormat, width: nat, height: nat)
    requires format != OtherFormat
    ensures var ps := SetHeifColor(format, width, height).planes;
            && ps[0] == Plane(ChannelY, 8, width, height)
            && ps[1].channel == ChannelCb && ps[2].channel == ChannelCr
            && ps[1].depth == 8 && ps[2].depth == 8
            && ps[1].width == ps[2].width && ps[1].height == ps[2].height
            && width <= 2 * ps[1].width && (width == 0 || 2 * (ps[1].width - 1) < width)
            && height <= 2 * ps[1].height && (height == 0 || 2 * (ps[1].height - 1) < height)
  {
  }

  // ---------------------------------------------------------------- plane copy

  /** Row h of a plane with the given stride holds the first stride bytes of source row h. */
  predicate RowCopied(dst: seq<byte>, src: seq<byte>, stride: nat, linesize: nat, h: nat)
  {
    RowAt(dst, src, stride * h, linesize * h, stride)
  }

  /** The n bytes of dst from offset d are the n bytes of src from offset s. */
  predicate RowAt(dst: seq<byte>, src: seq<byte>, d: nat, s: nat, n: nat)
  {
    d + n <= |dst| && s + n <= |src| && dst[d .. d + n] == src[s .. s + n]
  }

  lemma MulMonotone(a: nat, x: nat, y: nat)
    requires x <= y
    ensures a * x <= a * y
  {
  }

  /** The row after row x starts stride bytes further on. */
  lemma MulStep(a: nat, x: nat)
    ensures a * (x + 1) == a * x + a
  {
  }

  /** Row k of a plane ends where row h starts or earlier when k < h. */
  lemma RowEndsBefore(stride: nat, k: nat, h: nat)
    requires k < h
    ensures stride * k + stride <= stride * h
  {
    MulStep(stride, k);
    MulMonotone(stride, k + 1, h);
  }

  /** A row that ends within the first m bytes depends only on those bytes of the plane. */
  lemma RowAtPrefix(a: seq<byte>, b: seq<byte>, src: seq<byte>, d: nat, s: nat, n: nat, m: nat)
    requires d + n <= m <= |a| && m <= |b| && a[..m] == b[..m]
    requires RowAt(a, src, d, s, n)
    ensures RowAt(b, src, d, s, n)
  {
    assert b[d .. d + n] == b[..m][d .. d + n];
    assert a[d .. d + n] == a[..m][d .. d + n];
  }

  /** memcpy: n bytes from offset s of src to offset d of dst; the rest of dst is left alone. */
  method CopyBytes(dst: array<byte>, d: nat, src: array<byte>, s: nat, n: nat)
    requires dst != src
    requires d + n <= dst.Length && s + n <= src.Length
    modifies dst
    ensures dst[d .. d + n] == src[s .. s + n]
    ensures dst[..d] == old(dst[..d]) && dst[d + n..] == old(dst[d + n..])
  {
    forall k | d <= k < d + n {
      dst[k] := src[s + (k - d)];
    }
  }

  /** The rows below row h keep their copies when row h is written. */
  lemma EarlierRowsKept(before: seq<byte>, after: seq<byte>, src: seq<byte>, stride: nat, linesize: nat, h: nat)
    requires stride * h <= |before| == |after|
    requires before[..stride * h] == after[..stride * h]
    requires forall k :: 0 <= k < h ==> RowCopied(before, src, stride, linesize, k)
    ensures forall k :: 0 <= k < h ==> RowCopied(after, src, stride, linesize, k)
  {
    forall k | 0 <= k < h
      ensures RowCopied(after, src, stride, linesize, k)
    {
      RowEndsBefore(stride, k, h);
      assert RowCopied(before, src, stride, linesize, k);
      RowAtPrefix(before, after, src, stride * k, linesize * k, stride, stride * h);
    }
  }

  /** Bytes left alone from offset x on are left alone from any later offset too. */
  lemma SuffixKept(a: seq<byte>, b: seq<byte>, x: nat, y: nat)
    requires x <= y <= |a| == |b| && a[x..] == b[x..]
    ensures a[y..] == b[y..]
  {
    assert a[y..] == a[x..][y - x..];
    assert b[y..] == b[x..][y - x..];
  }

  /**
    One pass of the row loop: row h is copied, the rows before it keep their
    copies, and the plane from the end of row h on is left alone.
   */
  method CopyRow(dst: array<byte>, src: array<byte>, stride: nat, linesize: nat, h: nat)
    requires dst != src
    requires stride * h + stride <= dst.Length && linesize * h + stride <= src.Length
    requires forall k :: 0 <= k < h ==> RowCopied(dst[..], src[..], stride, linesize, k)
    modifies dst
    ensures forall k :: 0 <= k <= h ==> RowCopied(dst[..], src[..], stride, linesize, k)
    ensures dst[stride * h + stride..] == old(dst[stride * h + stride..])
  {
    ghost var before := dst[..];
    CopyBytes(dst, stride * h, src, linesize * h, stride);
    EarlierRowsKept(before, dst[..], src[..], stride, linesize, h);
    assert RowCopied(dst[..], src[..], stride, linesize, h);
  }

  /**
    Copies height rows of stride bytes each, row h from offset linesize * h of
    the decoder's buffer to offset stride * h of the plane, and leaves the
    rest of the plane alone. Every source row must hold stride bytes.
   */
  method CopyPlane(dst: array<byte>, src: array<byte>, stride: nat, linesize: nat, height: nat)
    requires dst != src
    requires stride * height <= dst.Length
    requires height == 0 || linesize * (height - 1) + stride <= src.Length
    modifies dst
    ensures forall h :: 0 <= h < height ==> RowCopied(dst[..], src[..], stride, linesize, h)
    ensures dst[stride * height..] == old(dst[stride * height..])
  {
    var h := 0;
    while h < height
      invariant 0 <= h <= height
      invariant stride * h <= dst.Length
      invariant forall k :: 0 <= k < h ==> RowCopied(dst[..], src[..], stride, linesize, k)
      invariant dst[stride * h..] == old(dst[stride * h..])
    {
      MulStep(stride, h);
      MulMonotone(stride, h + 1, height);
      MulMonotone(linesize, h, height - 1);
      ghost var before := dst[..];
      CopyRow(dst, src, stride, linesize, h);
      SuffixKept(before, old(dst[..]), stride * h, stride * (h + 1));
      h := h + 1;
    }
  }

  /**
    The copy loop over the planes SetHeifColor lays out for the frame: plane i
    receives the rows of decoder buffer i, and each plane buffer keeps every
    byte past its last row. The plane buffers are distinct from each other
    and from every decoder buffer.
   */
  method CopyPlanes(format: PixelFormat, width: nat, height: nat, dsts: seq<array<byte>>, strides: seq<nat>,
                    srcs: seq<array<byte>>, linesizes: seq<nat>)
    requires |dsts| == |strides| == |srcs| == |linesizes| == |SetHeifColor(format, width, height).planes|
    requires forall i, j :: 0 <= i < j < |dsts| ==> dsts[i] != dsts[j]
    requires forall i, j :: 0 <= i < |dsts| && 0 <= j < |srcs| ==> dsts[i] != srcs[j]
    requires var ps := SetHeifColor(format, width, height).planes;
             forall i :: 0 <= i < |dsts| ==> strides[i] * ps[i].height <= dsts[i].Length
    requires var ps := SetHeifColor(format, width, height).planes;
             forall i :: 0 <= i < |srcs| ==> ps[i].height == 0 || linesizes[i] * (ps[i].height - 1) + strides[i] <= srcs[i].Length
    modifies set i | 0 <= i < |dsts| :: dsts[i]
    ensures var ps := SetHeifColor(format, width, height).planes;
            forall i, h :: 0 <= i < |dsts| && 0 <= h < ps[i].height ==>
              RowCopied(dsts[i][..], srcs[i][..], strides[i], linesizes[i], h)
    ensures var ps := SetHeifColor(format, width, height).planes;
            forall i :: 0 <= i < |dsts| ==> dsts[i][strides[i] * ps[i].height..] == old(dsts[i][strides[i] * ps[i].height..])
  {
    var planes := SetHeifColor(format, width, height).planes;
    for i := 0 to |dsts|
      invariant forall c, h :: 0 <= c < i && 0 <= h < planes[c].height ==>
                  RowCopied(dsts[c][..], srcs[c][..], strides[c], linesizes[c], h)
      invariant forall c :: 0 <= c < i ==>
                  dsts[c][strides[c] * planes[c].height..] == old(dsts[c][strides[c] * planes[c].height..])
      invariant forall c :: i <= c < |dsts| ==> dsts[c][..] == old(dsts[c][..])
    {
      CopyPlane(dsts[i], srcs[i], strides[i], linesizes[i], planes[i].height);
    }
  }

  // ---------------------------------------------------------------- Exif block

  /** "Exif" followed by two zero bytes. */
  const ExifPrefix: seq<byte> := [0x45, 0x78, 0x69, 0x66, 0, 0]
  const ExifSuffix: seq<byte> := [0, 1, 0, 0]

  /** The encoded Exif data between its prefix and suffix, or None when the frame is not there. */
  function Unframe(blob: seq<byte>): (r: Option<seq<byte>>)
    ensures r.Some? ==> blob == ExifPrefix + r.value + ExifSuffix
  {
    if |blob| >= 10 && blob[..6] == ExifPrefix && blob[|blob| - 4..] == ExifSuffix
    then
      assert blob == blob[..6] + blob[6..|blob| - 4] + blob[|blob| - 4..];
      Some(blob[6..|blob| - 4])
    else None
  }

  /**
    The block handed to the encoder: the prefix is inserted into the empty
    buffer, the encoder appends the encoded Exif data, then the suffix is
    appended. Unframing it gives back exactly the encoded data.
   */
  method AddMeta(encoded: seq<byte>) returns (blob: seq<byte>)
    ensures |blob| == |encoded| + 10
    ensures blob[..6] == ExifPrefix && blob[|blob| - 4..] == ExifSuffix
    ensures Unframe(blob) == Some(encoded)
  {
    blob := [];
    blob := ExifPrefix + blob;
    blob := blob + encoded;
    blob := blob + ExifSuffix;
    assert blob[6..|blob| - 4] == encoded;
  }
}
