/** Reading the size of a picture from its first bytes (`readImageDimensions`, `isPng`, `isJpeg`,
    `readJpegDimensions` in scripts/update-clawtributors.ts).  JPEG terms are those of ITU-T T.81:
    markers in section B.1.1.3, marker segments in B.1.1.4, frame headers in B.2.2. */
module ImageDimensions {
  import opened Wrappers

  type Byte = b: int | 0 <= b < 0x100
  type Bytes = seq<Byte>

  datatype Dimensions = Dimensions(width: nat, height: nat)

  function U16(high: Byte, low: Byte): nat {
    high * 0x100 + low
  }

  /** Start and end of image, TEM and the restart markers stand alone, without a length. */
  predicate StandsAlone(marker: Byte) {
    marker == 0xd8 || marker == 0xd9 || marker == 0x01 || 0xd0 <= marker <= 0xd7
  }

  /** Start-of-frame markers: C0 to CF but for C4 (tables), C8 (reserved) and CC (arithmetic coding). */
  predicate StartsFrame(marker: Byte) {
    0xc0 <= marker <= 0xc3 || 0xc5 <= marker <= 0xc7 || 0xc9 <= marker <= 0xcb || 0xcd <= marker <= 0xcf
  }

  // ----- the program

  /** The walk over what is left of the buffer. */
  function Walk(rest: Bytes): Option<Dimensions>
    decreases |rest|
  {
    if |rest| <= 9 then None
    else if rest[0] != 0xff then Walk(rest[1..])
    else if StandsAlone(rest[1]) then Walk(rest[2..])
    else
      var length := U16(rest[2], rest[3]);
      if length < 2 || 2 + length > |rest| then None
      else if StartsFrame(rest[1]) then
        (if length < 7 then None else Some(Dimensions(U16(rest[7], rest[8]), U16(rest[5], rest[6]))))
      else Walk(rest[2 + length..])
  }

  lemma WalkStray(buffer: Bytes, offset: nat)
    requires offset + 9 < |buffer| && buffer[offset] != 0xff
    ensures Walk(buffer[offset..]) == Walk(buffer[offset + 1..])
  {
    assert buffer[offset..][1..] == buffer[offset + 1..];
  }

  lemma WalkAlone(buffer: Bytes, offset: nat)
    requires offset + 9 < |buffer| && buffer[offset] == 0xff && StandsAlone(buffer[offset + 1])
    ensures Walk(buffer[offset..]) == Walk(buffer[offset + 2..])
  {
    assert buffer[offset..][1] == buffer[offset + 1] && buffer[offset..][2..] == buffer[offset + 2..];
  }

  /** A marker with a length, at an offset of the whole buffer. */
  lemma WalkMarker(buffer: Bytes, offset: nat)
    requires offset + 9 < |buffer| && buffer[offset] == 0xff && !StandsAlone(buffer[offset + 1])
    ensures var length := U16(buffer[offset + 2], buffer[offset + 3]);
            Walk(buffer[offset..]) ==
            if length < 2 || offset + 2 + length > |buffer| then None
            else if StartsFrame(buffer[offset + 1]) then
              (if length < 7 then None
               else Some(Dimensions(U16(buffer[offset + 7], buffer[offset + 8]),
                                    U16(buffer[offset + 5], buffer[offset + 6]))))
            else Walk(buffer[offset + 2 + length..])
  {
    var rest, length := buffer[offset..], U16(buffer[offset + 2], buffer[offset + 3]);
    assert forall i :: 0 <= i < |rest| ==> rest[i] == buffer[offset + i];
    assert 2 + length <= |rest| ==> rest[2 + length..] == buffer[offset + 2 + length..];
  }

  /** The walk over the file has come to the offset. */
  ghost predicate Reached(buffer: Bytes, offset: nat) {
    2 <= offset <= |buffer| && Walk(buffer[offset..]) == Walk(buffer[2..])
  }

  lemma StepOver(buffer: Bytes, offset: nat)
    requires offset + 9 < |buffer| && Reached(buffer, offset)
    ensures buffer[offset] != 0xff ==> Reached(buffer, offset + 1)
    ensures buffer[offset] == 0xff && StandsAlone(buffer[offset + 1]) ==> Reached(buffer, offset + 2)
  {
    if buffer[offset] != 0xff {
      WalkStray(buffer, offset);
    } else if StandsAlone(buffer[offset + 1]) {
      WalkAlone(buffer, offset);
    }
  }

  lemma ReadSegment(buffer: Bytes, offset: nat)
    requires offset + 9 < |buffer| && Reached(buffer, offset)
    requires buffer[offset] == 0xff && !StandsAlone(buffer[offset + 1])
    ensures var length := U16(buffer[offset + 2], buffer[offset + 3]);
            if length < 2 || offset + 2 + length > |buffer| then Walk(buffer[2..]) == None
            else if StartsFrame(buffer[offset + 1]) then
              Walk(buffer[2..]) ==
              (if length < 7 then None
               else Some(Dimensions(U16(buffer[offset + 7], buffer[offset + 8]),
                                    U16(buffer[offset + 5], buffer[offset + 6]))))
            else Reached(buffer, offset + 2 + length)
  {
    WalkMarker(buffer, offset);
  }

  /** The loop never reads outside the buffer and always ends. */
  method ReadJpegDimensions(buffer: Bytes) returns (dimensions: Option<Dimensions>)
    ensures dimensions == if |buffer| < 2 then None else Walk(buffer[2..])
  {
    var offset := 2;
    while offset + 9 < |buffer|
      invariant 2 <= offset && (2 <= |buffer| ==> Reached(buffer, offset))
      decreases |buffer| - offset
    {
      StepOver(buffer, offset);
      if buffer[offset] != 0xff {
        offset := offset + 1;
        continue;
      }
      var marker := buffer[offset + 1];
      ghost var at := offset;
      offset := offset + 2;
      if marker == 0xd8 || marker == 0xd9 {
        continue;
      }
      if marker == 0x01 || (marker >= 0xd0 && marker <= 0xd7) {
        continue;
      }
      ReadSegment(buffer, at);
      if offset + 2 > |buffer| {
        assert false;  // the loop has made sure of eight more bytes
      }
      var length := U16(buffer[offset], buffer[offset + 1]);
      if length < 2 || offset + length > |buffer| {
        return None;
      }
      if (marker >= 0xc0 && marker <= 0xc3) || (marker >= 0xc5 && marker <= 0xc7) ||
         (marker >= 0xc9 && marker <= 0xcb) || (marker >= 0xcd && marker <= 0xcf) {
        if length < 7 {
          return None;
        }
        return Some(Dimensions(U16(buffer[offset + 5], buffer[offset + 6]),
                               U16(buffer[offset + 3], buffer[offset + 4])));
      }
      offset := offset + length;
    }
    return None;
  }

  predicate IsPng(buffer: Bytes) {
    |buffer| >= 24 && buffer[..8] == PNG_SIGNATURE
  }

  predicate IsJpeg(buffer: Bytes) {
    |buffer| >= 4 && buffer[0] == 0xff && buffer[1] == 0xd8
  }

  function U32(a: Byte, b: Byte, c: Byte, d: Byte): nat {
    U16(a, b) * 0x10000 + U16(c, d)
  }

  function ImageSize(buffer: Bytes): Option<Dimensions> {
    if IsPng(buffer) then
      Some(Dimensions(U32(buffer[16], buffer[17], buffer[18], buffer[19]),
                      U32(buffer[20], buffer[21], buffer[22], buffer[23])))
    else if IsJpeg(buffer) then Walk(buffer[2..])
    else None
  }

  method ReadImageDimensions(buffer: Bytes) returns (dimensions: Option<Dimensions>)
    ensures dimensions == ImageSize(buffer)
  {
    if IsPng(buffer) {
      dimensions := ReadPngDimensions(buffer);
    } else if IsJpeg(buffer) {
      dimensions := ReadJpegDimensions(buffer);
    } else {
      dimensions := None;
    }
  }

  method ReadPngDimensions(buffer: Bytes) returns (dimensions: Option<Dimensions>)
    ensures dimensions ==
            if |buffer| < 24 then None
            else Some(Dimensions(U32(buffer[16], buffer[17], buffer[18], buffer[19]),
                                 U32(buffer[20], buffer[21], buffer[22], buffer[23])))
  {
    if |buffer| < 24 {
      return None;
    }
    var width := ReadUInt32BE(buffer, 16);
    var height := ReadUInt32BE(buffer, 20);
    return Some(Dimensions(width, height));
  }

  /** `buffer.readUInt32BE(offset)`: four bytes, the most significant first. */
  method ReadUInt32BE(buffer: Bytes, offset: nat) returns (value: nat)
    requires offset + 4 <= |buffer|
    ensures value == U32(buffer[offset], buffer[offset + 1], buffer[offset + 2], buffer[offset + 3])
  {
    value := 0;
    for i := 0 to 4
      invariant value == if i == 0 then 0 else if i == 1 then buffer[offset]
                         else if i == 2 then U16(buffer[offset], buffer[offset + 1])
                         else if i == 3 then U16(buffer[offset], buffer[offset + 1]) * 0x100 + buffer[offset + 2]
                         else U32(buffer[offset], buffer[offset + 1], buffer[offset + 2], buffer[offset + 3])
    {
      value := value * 0x100 + buffer[offset + i];
    }
  }

  // ----- what is a PNG file up to its size

  const PNG_SIGNATURE: Bytes := [0x89, 0x50, 0x4e, 0x47, 0x0d, 0x0a, 0x1a, 0x0a]

  /** The number that bytes stand for, the most significant first. */
  function BigEndian(bytes: Bytes): nat {
    if bytes == [] then 0 else 0x100 * BigEndian(bytes[..|bytes| - 1]) + bytes[|bytes| - 1]
  }

  /** A number stands in only one way in a given number of bytes. */
  lemma {:induction false} BigEndianIsInjective(a: Bytes, b: Bytes)
    requires |a| == |b| && BigEndian(a) == BigEndian(b)
    ensures a == b
    decreases |a|
  {
    if a != [] {
      BigEndianIsInjective(a[..|a| - 1], b[..|b| - 1]);
      assert a == a[..|a| - 1] + [a[|a| - 1]] && b == b[..|b| - 1] + [b[|b| - 1]];
    }
  }

  lemma FourBytes(bytes: Bytes)
    requires |bytes| == 4
    ensures BigEndian(bytes) == U32(bytes[0], bytes[1], bytes[2], bytes[3])
  {
    var three, two, one := bytes[..3], bytes[..2], bytes[..1];
    assert three[..2] == two && two[..1] == one && one[..0] == [];
    assert BigEndian(one) == bytes[0] && BigEndian(two) == 0x100 * BigEndian(one) + bytes[1];
    assert BigEndian(three) == 0x100 * BigEndian(two) + bytes[2];
  }

  lemma TwoBytes(bytes: Bytes)
    requires |bytes| == 2
    ensures BigEndian(bytes) == U16(bytes[0], bytes[1])
  {
    var one := bytes[..1];
    assert one[..0] == [] && BigEndian(one) == bytes[0];
  }

  /** A file that begins with the signature is taken for a PNG file, and its size is read exactly as
      the header gives it: eight bytes of chunk head behind the signature, then width and height. */
  lemma PngSizeExactly(buffer: Bytes, width: nat, height: nat)
    requires PNG_SIGNATURE <= buffer
    ensures ImageSize(buffer) == Some(Dimensions(width, height)) <==>
            |buffer| >= 24 && width == BigEndian(buffer[16..20]) && height == BigEndian(buffer[20..24])
  {
    assert buffer[..8] == PNG_SIGNATURE;
    if |buffer| >= 24 {
      FourBytes(buffer[16..20]);
      FourBytes(buffer[20..24]);
    }
  }

  // ----- what is a JPEG file up to its frame header

  /** What may come before the frame header: bytes that are no marker, markers that stand alone,
      and marker segments of any other kind. */
  datatype Part = Stray(value: Byte) | Alone(marker: Byte) | Segment(marker: Byte, payload: Bytes)

  predicate ValidPart(part: Part) {
    match part
    case Stray(value) => value != 0xff
    case Alone(marker) => StandsAlone(marker)
    case Segment(marker, payload) => !StandsAlone(marker) && !StartsFrame(marker) && |payload| + 2 <= 0xffff
  }

  function EncodeU16(n: nat): (bytes: Bytes)
    requires n <= 0xffff
    ensures |bytes| == 2 && U16(bytes[0], bytes[1]) == n == BigEndian(bytes)
  {
    TwoBytes([n / 0x100, n % 0x100]);
    [n / 0x100, n % 0x100]
  }

  function EncodePart(part: Part): Bytes
    requires ValidPart(part)
  {
    match part
    case Stray(value) => [value]
    case Alone(marker) => [0xff, marker]
    case Segment(marker, payload) => [0xff, marker] + EncodeU16(|payload| + 2) + payload
  }

  function EncodeParts(parts: seq<Part>): Bytes
    requires forall i :: 0 <= i < |parts| ==> ValidPart(parts[i])
  {
    if parts == [] then [] else EncodePart(parts[0]) + EncodeParts(parts[1..])
  }

  /** A frame header: its marker, the declared length of the segment, sample precision and size. */
  datatype Frame = Frame(marker: Byte, length: nat, precision: Byte, height: nat, width: nat)

  /** The frame header fits with what follows: the declared length is there, and at least one byte
      comes after the size (in a well-formed header, the number of components). */
  predicate ValidFrame(frame: Frame, tail: Bytes) {
    StartsFrame(frame.marker) && 7 <= frame.length <= 0xffff && frame.length <= 7 + |tail| && tail != [] &&
    frame.height <= 0xffff && frame.width <= 0xffff
  }

  function EncodeFrame(frame: Frame, tail: Bytes): (bytes: Bytes)
    requires ValidFrame(frame, tail)
    ensures |bytes| == 9 + |tail|
  {
    [0xff, frame.marker] + EncodeU16(frame.length) + [frame.precision] + EncodeU16(frame.height) +
    EncodeU16(frame.width) + tail
  }

  /** The bytes after the start of image. */
  predicate Describes(rest: Bytes, parts: seq<Part>, frame: Frame, tail: Bytes) {
    && (forall i :: 0 <= i < |parts| ==> ValidPart(parts[i])) && ValidFrame(frame, tail)
    && rest == EncodeParts(parts) + EncodeFrame(frame, tail)
  }

  lemma WalkFrame(frame: Frame, tail: Bytes)
    requires ValidFrame(frame, tail)
    ensures Walk(EncodeFrame(frame, tail)) == Some(Dimensions(frame.width, frame.height))
  {
    var bytes, length := EncodeFrame(frame, tail), EncodeU16(frame.length);
    assert bytes[0] == 0xff && bytes[1] == frame.marker;
    assert bytes[2] == length[0] && bytes[3] == length[1];
    assert bytes[5] == EncodeU16(frame.height)[0] && bytes[6] == EncodeU16(frame.height)[1];
    assert bytes[7] == EncodeU16(frame.width)[0] && bytes[8] == EncodeU16(frame.width)[1];
  }

  lemma WalkPart(part: Part, rest: Bytes)
    requires ValidPart(part) && |rest| > 9
    ensures Walk(EncodePart(part) + rest) == Walk(rest)
  {
    var bytes := EncodePart(part) + rest;
    match part
    case Stray(value) => assert bytes[1..] == rest;
    case Alone(marker) => assert bytes[2..] == rest;
    case Segment(marker, payload) =>
      var length := EncodeU16(|payload| + 2);
      assert bytes[2] == length[0] && bytes[3] == length[1];
      assert bytes[2 + (|payload| + 2)..] == rest;
  }

  /** The walk steps over anything that may come before the frame header and reads it. */
  lemma {:induction false} WalkFindsFrame(parts: seq<Part>, frame: Frame, tail: Bytes)
    requires (forall i :: 0 <= i < |parts| ==> ValidPart(parts[i])) && ValidFrame(frame, tail)
    ensures Walk(EncodeParts(parts) + EncodeFrame(frame, tail)) == Some(Dimensions(frame.width, frame.height))
    decreases |parts|
  {
    if parts == [] {
      assert EncodeParts(parts) + EncodeFrame(frame, tail) == EncodeFrame(frame, tail);
      WalkFrame(frame, tail);
    } else {
      var rest := EncodeParts(parts[1..]) + EncodeFrame(frame, tail);
      assert EncodeParts(parts) + EncodeFrame(frame, tail) == EncodePart(parts[0]) + rest;
      WalkPart(parts[0], rest);
      WalkFindsFrame(parts[1..], frame, tail);
    }
  }

  lemma EncodeDecodeU16(high: Byte, low: Byte)
    ensures EncodeU16(U16(high, low)) == [high, low]
  {
  }

  lemma FrameFound(rest: Bytes) returns (frame: Frame, tail: Bytes)
    requires |rest| > 9 && rest[0] == 0xff && StartsFrame(rest[1])
    requires var length := U16(rest[2], rest[3]); 7 <= length && 2 + length <= |rest|
    ensures ValidFrame(frame, tail) && rest == EncodeFrame(frame, tail)
    ensures frame.width == U16(rest[7], rest[8]) && frame.height == U16(rest[5], rest[6])
  {
    frame := Frame(rest[1], U16(rest[2], rest[3]), rest[4], U16(rest[5], rest[6]), U16(rest[7], rest[8]));
    tail := rest[9..];
    EncodeDecodeU16(rest[2], rest[3]);
    EncodeDecodeU16(rest[5], rest[6]);
    EncodeDecodeU16(rest[7], rest[8]);
    assert rest[..9] == [0xff, frame.marker] + [rest[2], rest[3]] + [frame.precision] + [rest[5], rest[6]] +
                        [rest[7], rest[8]];
    assert rest == rest[..9] + tail;
  }

  lemma PartFound(rest: Bytes) returns (part: Part, after: nat)
    requires |rest| > 9
    requires rest[0] != 0xff || StandsAlone(rest[1]) ||
             (!StartsFrame(rest[1]) && 2 <= U16(rest[2], rest[3]) && 2 + U16(rest[2], rest[3]) <= |rest|)
    ensures ValidPart(part) && 1 <= after <= |rest| && rest == EncodePart(part) + rest[after..] &&
            Walk(rest) == Walk(rest[after..])
  {
    if rest[0] != 0xff {
      part, after := Stray(rest[0]), 1;
    } else if StandsAlone(rest[1]) {
      part, after := Alone(rest[1]), 2;
      assert rest[..2] == [0xff, rest[1]];
    } else {
      var length := U16(rest[2], rest[3]);
      after := 2 + length;
      part := Segment(rest[1], rest[4..after]);
      EncodeDecodeU16(rest[2], rest[3]);
      assert rest == [0xff, rest[1]] + [rest[2], rest[3]] + rest[4..after] + rest[after..];
    }
  }

  /** Whatever size the walk reports, it is the one in a frame header that stands behind parts it
      has recognised. */
  lemma {:induction false} WalkIsSound(rest: Bytes) returns (parts: seq<Part>, frame: Frame, tail: Bytes)
    requires Walk(rest).Some?
    ensures Describes(rest, parts, frame, tail) && Walk(rest) == Some(Dimensions(frame.width, frame.height))
    decreases |rest|
  {
    if rest[0] == 0xff && StartsFrame(rest[1]) {
      frame, tail := FrameFound(rest);
      parts := [];
      assert [] + EncodeFrame(frame, tail) == EncodeFrame(frame, tail);
    } else {
      var part, after := PartFound(rest);
      var more;
      more, frame, tail := WalkIsSound(rest[after..]);
      parts := [part] + more;
      DescribesMore(rest, part, rest[after..], more, frame, tail);
    }
  }

  lemma DescribesMore(rest: Bytes, part: Part, after: Bytes, parts: seq<Part>, frame: Frame, tail: Bytes)
    requires ValidPart(part) && rest == EncodePart(part) + after && Describes(after, parts, frame, tail)
    ensures Describes(rest, [part] + parts, frame, tail)
  {
    assert ([part] + parts)[1..] == parts;
    var encoded := EncodeFrame(frame, tail);
    assert EncodePart(part) + (EncodeParts(parts) + encoded) == EncodePart(part) + EncodeParts(parts) + encoded;
  }

  /** A JPEG file's size is read exactly when its bytes are a start of image, any number of stray
      bytes, markers that stand alone and other marker segments, and a frame header; and then it is
      the size in that header. */
  lemma JpegSizeExactly(buffer: Bytes, size: Dimensions)
    requires IsJpeg(buffer)
    ensures ImageSize(buffer) == Some(size) <==>
            exists parts, frame, tail :: Describes(buffer[2..], parts, frame, tail) &&
                                         size == Dimensions(frame.width, frame.height)
  {
    assert |buffer| >= 24 ==> buffer[..8][0] == buffer[0] == 0xff;
    if ImageSize(buffer) == Some(size) {
      var parts, frame, tail := WalkIsSound(buffer[2..]);
    }
    if parts, frame, tail :| Describes(buffer[2..], parts, frame, tail) &&
                             size == Dimensions(frame.width, frame.height) {
      WalkFindsFrame(parts, frame, tail);
    }
  }

  /** The frame markers by what they say (T.81 section B.1.1.3, table B.1): one of four processes
      (baseline, extended, progressive, lossless), differential or not, Huffman or arithmetic.  The
      combinations that there are no frames for are baseline with either of the two. */
  function FrameMarker(process: nat, differential: bool, arithmetic: bool): Byte
    requires process < 4
  {
    0xc0 + process + (if differential then 4 else 0) + (if arithmetic then 8 else 0)
  }

  predicate IsFrameMarker(marker: Byte, process: nat, differential: bool, arithmetic: bool) {
    process < 4 && (process == 0 ==> !differential && !arithmetic) &&
    marker == FrameMarker(process, differential, arithmetic)
  }

  lemma StartsFrameExactly(marker: Byte)
    ensures StartsFrame(marker) <==>
            exists process: nat, differential, arithmetic :: IsFrameMarker(marker, process, differential, arithmetic)
  {
    if 0xc0 <= marker <= 0xcf {
      var n := marker - 0xc0;
      assert StartsFrame(marker) ==> IsFrameMarker(marker, n % 4, n / 4 % 2 == 1, n / 8 == 1);
    }
  }

  /** Of files that differ only in the marker before the same header, the size is read exactly from
      those with a frame marker, unless the marker is one of those that stand alone. */
  lemma SizeNeedsFrameMarker(marker: Byte, frame: Frame, components: Bytes)
    requires !(marker == 0x01 || 0xd0 <= marker <= 0xd9)
    requires ValidFrame(frame, components) && frame.length == 7 + |components|
    ensures ImageSize([0xff, 0xd8, 0xff, marker] + EncodeFrame(frame, components)[2..]) ==
            Some(Dimensions(frame.width, frame.height)) <==>
            exists process: nat, differential, arithmetic :: IsFrameMarker(marker, process, differential, arithmetic)
  {
    var encoded := EncodeFrame(frame, components);
    var file, rest := [0xff, 0xd8, 0xff, marker] + encoded[2..], [0xff, marker] + encoded[2..];
    assert file[2..] == rest && |rest| == 2 + frame.length;
    assert |file| >= 24 ==> file[..8][0] == 0xff;
    StartsFrameExactly(marker);
    var length := EncodeU16(frame.length);
    assert rest[2] == encoded[2] == length[0] && rest[3] == encoded[3] == length[1];
    if StartsFrame(marker) {
      assert rest == EncodeFrame(frame.(marker := marker), components);
      WalkFrame(frame.(marker := marker), components);
    } else {
      assert rest[2 + frame.length..] == [] && Walk([]) == None;
      assert Walk(rest) == None;
    }
  }

  /** Start and end of image, the restart markers and TEM are stepped over alone. */
  lemma AloneIsSkipped(marker: Byte, rest: Bytes)
    requires (marker == 0x01 || 0xd0 <= marker <= 0xd9) && |rest| >= 8
    ensures Walk([0xff, marker] + rest) == Walk(rest)
  {
    assert ([0xff, marker] + rest)[2..] == rest;
  }

  /** T.81 section B.1.1.2 allows fill bytes FF before a marker; the walk takes a fill byte for a
      marker and the real marker for the first byte of a length of at least 0xC000.  One fill byte
      before the frame header therefore hides it in any shorter buffer. */
  lemma FillByteHidesFrame(frame: Frame, tail: Bytes)
    requires ValidFrame(frame, tail) && |tail| < 0xc000 - 8
    ensures Walk([0xff] + EncodeFrame(frame, tail)) == None
    ensures Walk(EncodeFrame(frame, tail)).Some?
  {
    var bytes := [0xff] + EncodeFrame(frame, tail);
    WalkFrame(frame, tail);
    assert bytes[1] == 0xff && bytes[2] == frame.marker && bytes[3] == EncodeU16(frame.length)[0];
  }
}
