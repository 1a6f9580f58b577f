/**
 * ICO containers: the writer of scripts/generate_brand_assets.py and the parser of scripts/pe_resources.py,
 * which also builds the group resource that names the images.
 */
module Ico {
  import opened Wrappers
  import opened Bytes

  datatype IcoError = TooShort | InvalidHeader | EntryBeyondFile | StructError

  const MAX_IMAGES: nat := 64
  const SIZES: seq<nat> := [16, 24, 32, 48, 64, 96, 128, 256]

  // ----- What an ICO file and an icon group mean -----

  function Count(data: seq<Byte>): nat
  {
    if |data| < 6 then 0 else U16At(data, 4)
  }

  /** Directory entry `i` is inside the file and so is the image it points at. */
  predicate EntryInside(data: seq<Byte>, i: nat)
  {
    6 + 16 * i + 16 <= |data| && U32At(data, 6 + 16 * i + 12) + U32At(data, 6 + 16 * i + 8) <= |data|
  }

  /** What the parser accepts, for images that get the ids from `firstId` on. */
  predicate WellFormed(data: seq<Byte>, firstId: nat)
  {
    6 <= |data| && U16At(data, 0) == 0 && U16At(data, 2) == 1 && 1 <= Count(data) <= MAX_IMAGES &&
    firstId + Count(data) <= U16_LIMIT &&
    forall i :: 0 <= i < Count(data) ==> EntryInside(data, i)
  }

  /** Image `i`, at the offset and of the size its directory entry says. */
  function Image(data: seq<Byte>, i: nat): seq<Byte>
    requires EntryInside(data, i)
  {
    var size, offset := U32At(data, 6 + 16 * i + 8), U32At(data, 6 + 16 * i + 12);
    data[offset..offset + size]
  }

  /**
   * The group lists `count` images, the `i`-th with the attributes and size of `data`'s entry and the id `firstId + i`.
   */
  ghost predicate GroupLists(group: seq<Byte>, data: seq<Byte>, firstId: nat, count: nat)
  {
    |group| == 6 + 14 * count && forall i :: 0 <= i < count ==> GroupEntry(group, data, firstId, i)
  }

  ghost predicate GroupEntry(group: seq<Byte>, data: seq<Byte>, firstId: nat, i: nat)
  {
    6 + 14 * i + 14 <= |group| && 6 + 16 * i + 12 <= |data| &&
    group[6 + 14 * i..6 + 14 * i + 12] == data[6 + 16 * i..6 + 16 * i + 12] &&
    U16At(group, 6 + 14 * i + 12) == firstId + i
  }

  ghost predicate GroupHeader(group: seq<Byte>, count: nat)
  {
    6 <= |group| && U16At(group, 0) == 0 && U16At(group, 2) == 1 && U16At(group, 4) == count
  }

  lemma GroupEntryKept(group: seq<Byte>, more: seq<Byte>, data: seq<Byte>, firstId: nat, i: nat)
    requires GroupEntry(group, data, firstId, i)
    ensures GroupEntry(group + more, data, firstId, i)
  {
    assert (group + more)[6 + 14 * i..6 + 14 * i + 12] == group[6 + 14 * i..6 + 14 * i + 12];
  }

  /** Packs a group entry: the first twelve bytes of a directory entry unpacked and packed again, then the id. */
  function PackGroupEntry(entry: seq<Byte>, id: nat): (b: seq<Byte>)
    requires |entry| == 12 && id < U16_LIMIT
    ensures |b| == 14
  {
    entry[..4] + Le16(U16At(entry, 4)) + Le16(U16At(entry, 6)) + Le32(U32At(entry, 8)) + Le16(id)
  }

  lemma Le16Round(b: seq<Byte>, off: nat)
    requires off + 2 <= |b|
    ensures Le16(U16At(b, off)) == b[off..off + 2]
  {
  }

  lemma Le32Round(b: seq<Byte>, off: nat)
    requires off + 4 <= |b|
    ensures Le32(U32At(b, off)) == b[off..off + 4]
  {
    Le16Round(b, off);
    Le16Round(b, off + 2);
    var low, high := U16At(b, off), U16At(b, off + 2);
    assert U32At(b, off) % U16_LIMIT == low && U32At(b, off) / U16_LIMIT == high;
    assert b[off..off + 4] == b[off..off + 2] + b[off + 2..off + 4];
  }

  lemma PackedGroupEntry(group: seq<Byte>, data: seq<Byte>, firstId: nat, i: nat)
    requires 6 + 16 * i + 12 <= |data| && |group| == 6 + 14 * i && firstId + i < U16_LIMIT
    ensures GroupEntry(group + PackGroupEntry(data[6 + 16 * i..6 + 16 * i + 12], firstId + i), data, firstId, i)
  {
    var entry := data[6 + 16 * i..6 + 16 * i + 12];
    var packed := PackGroupEntry(entry, firstId + i);
    Le16Round(entry, 4);
    Le16Round(entry, 6);
    Le32Round(entry, 8);
    assert packed == entry + Le16(firstId + i);
    assert (group + packed)[6 + 14 * i..6 + 14 * i + 12] == entry;
    assert At(group + packed, 6 + 14 * i + 12, Le16(firstId + i));
    Le16At(group + packed, 6 + 14 * i + 12, firstId + i);
  }

  /** The file begins as an icon of 1 to 64 images. */
  predicate IsIcon(data: seq<Byte>)
  {
    6 <= |data| && data[0] == 0 && data[1] == 0 && data[2] == 1 && data[3] == 0 && 1 <= U16At(data, 4) <= 64
  }

  /** What the parser accepts: icons whose ids fit and whose every entry points inside the file. */
  lemma WellFormedMeans(data: seq<Byte>, firstId: nat)
    ensures WellFormed(data, firstId) <==>
            IsIcon(data) && firstId + U16At(data, 4) <= 0x1_0000 &&
            forall i :: 0 <= i < U16At(data, 4) ==> EntryInside(data, i)
  {
  }

  // ----- The parser -----

  /** Succeeds exactly on well-formed files; the images are those the directory points at, the group lists them. */
  method ParseIco(data: seq<Byte>, firstId: nat) returns (r: Result<(seq<seq<Byte>>, seq<Byte>), IcoError>)
    ensures r.Ok? <==> WellFormed(data, firstId)
    ensures r.Ok? ==> ImagesOf(r.value.0, data, Count(data))
    ensures r.Ok? ==> GroupHeader(r.value.1, Count(data)) && GroupLists(r.value.1, data, firstId, Count(data))
  {
    if |data| < 6 { return Err(TooShort); }
    var count := U16At(data, 4);
    if U16At(data, 0) != 0 || U16At(data, 2) != 1 || count < 1 || count > MAX_IMAGES { return Err(InvalidHeader); }
    var images: seq<seq<Byte>> := [];
    var group := Le16(0) + Le16(1) + Le16(count);
    HeaderReads(group, count);
    for i := 0 to count
      invariant i == 0 || firstId + i <= U16_LIMIT
      invariant ImagesOf(images, data, i)
      invariant GroupHeader(group, count) && GroupLists(group, data, firstId, i)
    {
      var off := 6 + i * 16;
      if off + 16 > |data| {
        assert !EntryInside(data, i);
        return Err(StructError);
      }
      var size, imageOff := U32At(data, off + 8), U32At(data, off + 12);
      var end := imageOff + size;
      if end > |data| {
        assert !EntryInside(data, i);
        return Err(EntryBeyondFile);
      }
      assert EntryInside(data, i) && data[imageOff..end] == Image(data, i);
      NextImage(images, data, i);
      images := images + [data[imageOff..end]];
      if firstId + i >= U16_LIMIT { return Err(StructError); }
      NextGroupEntry(group, data, firstId, i, count);
      group := group + PackGroupEntry(data[off..off + 12], firstId + i);
    }
    return Ok((images, group));
  }

  ghost predicate ImagesOf(images: seq<seq<Byte>>, data: seq<Byte>, count: nat)
  {
    |images| == count && forall i :: 0 <= i < count ==> EntryInside(data, i) && images[i] == Image(data, i)
  }

  lemma NextImage(images: seq<seq<Byte>>, data: seq<Byte>, i: nat)
    requires ImagesOf(images, data, i) && EntryInside(data, i)
    ensures ImagesOf(images + [Image(data, i)], data, i + 1)
  {
  }

  lemma NextGroupEntry(group: seq<Byte>, data: seq<Byte>, firstId: nat, i: nat, count: nat)
    requires GroupHeader(group, count) && GroupLists(group, data, firstId, i)
    requires 6 + 16 * i + 16 <= |data| && firstId + i < U16_LIMIT
    ensures var more := group + PackGroupEntry(data[6 + i * 16..6 + i * 16 + 12], firstId + i);
            GroupHeader(more, count) && GroupLists(more, data, firstId, i + 1)
  {
    var packed := PackGroupEntry(data[6 + 16 * i..6 + 16 * i + 12], firstId + i);
    PackedGroupEntry(group, data, firstId, i);
    forall k | 0 <= k < i ensures GroupEntry(group + packed, data, firstId, k) {
      GroupEntryKept(group, packed, data, firstId, k);
    }
  }

  lemma HeaderReads(group: seq<Byte>, count: nat)
    requires count < U16_LIMIT && group == Le16(0) + Le16(1) + Le16(count)
    ensures GroupHeader(group, count)
  {
    assert At(group, 0, Le16(0)) && At(group, 2, Le16(1)) && At(group, 4, Le16(count));
    Le16At(group, 0, 0);
    Le16At(group, 2, 1);
    Le16At(group, 4, count);
  }

  // ----- The writer -----

  function Total(images: seq<seq<Byte>>): nat
  {
    if images == [] then 0 else Total(images[..|images| - 1]) + |images[|images| - 1]|
  }

  function Concat(images: seq<seq<Byte>>): (b: seq<Byte>)
    ensures |b| == Total(images)
  {
    if images == [] then [] else Concat(images[..|images| - 1]) + images[|images| - 1]
  }

  /** Width and height byte of an image; 256 is written as zero. */
  function Side(size: nat): Byte
  {
    if size == 256 then 0 else size % 256
  }

  function DirectoryEntry(size: nat, length: nat, offset: nat): (b: seq<Byte>)
    requires length < U32_LIMIT && offset < U32_LIMIT
    ensures |b| == 16
  {
    [Side(size), Side(size), 0, 0] + Le16(1) + Le16(32) + Le32(length) + Le32(offset)
  }

  /** Every image lies where its directory entry says. */
  ghost predicate Holds(data: seq<Byte>, images: seq<seq<Byte>>)
  {
    |data| >= 6 && U16At(data, 0) == 0 && U16At(data, 2) == 1 && Count(data) == |images| &&
    ImagesOf(images, data, |images|)
  }

  /** The side a directory entry states. */
  function SideOf(b: Byte): nat
  {
    if b == 0 then 256 else b
  }

  /** The directory entry at `at` describes a square image of this size, without palette, in one plane of 32 bits. */
  predicate Describes(b: seq<Byte>, at: nat, size: nat)
  {
    at + 8 <= |b| && SideOf(b[at]) == SideOf(b[at + 1]) == size && b[at + 2] == b[at + 3] == 0 &&
    U16At(b, at + 4) == 1 && U16At(b, at + 6) == 32
  }

  /** Length and offset of an image fit their fields. */
  predicate LengthFits(images: seq<seq<Byte>>, i: nat)
    requires i < |images|
  {
    |images[i]| < U32_LIMIT && 6 + 16 * |images| + Total(images[..i]) < U32_LIMIT
  }

  predicate LengthsFit(images: seq<seq<Byte>>)
  {
    forall i :: 0 <= i < |images| ==> LengthFits(images, i)
  }

  /** The first `i` directory entries. */
  ghost predicate Packed(directory: seq<Byte>, images: seq<seq<Byte>>, i: nat)
    requires |images| == |SIZES|
  {
    |directory| == 16 * i && i <= |images| &&
    forall k :: 0 <= k < i ==> EntrySays(directory, k, images) && LengthFits(images, k)
  }

  lemma PackedNext(directory: seq<Byte>, images: seq<seq<Byte>>, i: nat)
    requires i < |images| == |SIZES| && Packed(directory, images, i) && LengthFits(images, i)
    ensures var entry := DirectoryEntry(SIZES[i], |images[i]|, 6 + 16 * |images| + Total(images[..i]));
            Packed(directory + entry, images, i + 1)
  {
    var entry := DirectoryEntry(SIZES[i], |images[i]|, 6 + 16 * |images| + Total(images[..i]));
    forall k | 0 <= k < i + 1 ensures EntrySays(directory + entry, k, images) && LengthFits(images, k) {
      if k < i { EntryStays(directory, entry, k, images); } else { EntryPacked(directory, images, i); }
    }
  }

  method IcoBytes(images: seq<seq<Byte>>) returns (r: Result<seq<Byte>, IcoError>)
    requires |images| == |SIZES|
    ensures r.Ok? <==> LengthsFit(images)
    ensures r.Ok? ==> Holds(r.value, images)
    ensures r.Ok? ==>
              |images| == 8 &&
              forall i :: 0 <= i < 8 ==> Describes(r.value, 6 + 16 * i, [16, 24, 32, 48, 64, 96, 128, 256][i])
  {
    var header := [0, 0, 1, 0] + Le16(|images|);
    var directory: seq<Byte> := [];
    var offset := 6 + |images| * 16;
    for i := 0 to |images|
      invariant offset == 6 + 16 * |images| + Total(images[..i])
      invariant Packed(directory, images, i)
    {
      TotalGrows(images, i);
      if |images[i]| >= U32_LIMIT || offset >= U32_LIMIT {
        assert !LengthFits(images, i);
        return Err(StructError);
      }
      PackedNext(directory, images, i);
      directory := directory + DirectoryEntry(SIZES[i], |images[i]|, offset);
      offset := offset + |images[i]|;
    }
    WholeHolds(header, directory, images);
    return Ok(header + directory + Concat(images));
  }

  lemma EntryStays(directory: seq<Byte>, more: seq<Byte>, k: nat, images: seq<seq<Byte>>)
    requires |images| <= |SIZES| && EntrySays(directory, k, images)
    ensures EntrySays(directory + more, k, images)
  {
  }

  lemma WholeHolds(header: seq<Byte>, directory: seq<Byte>, images: seq<seq<Byte>>)
    requires |images| == |SIZES| && header == [0, 0, 1, 0] + Le16(|images|) && |directory| == 16 * |images|
    requires forall i :: 0 <= i < |images| ==> EntrySays(directory, i, images)
    ensures Holds(header + directory + Concat(images), images)
    ensures forall i :: 0 <= i < |images| ==> Describes(header + directory + Concat(images), 6 + 16 * i, SIZES[i])
  {
    ConcatAssociates(header, directory, Concat(images));
    FileHeaderReads(header, directory + Concat(images), |images|);
    var data := header + directory + Concat(images);
    forall i | 0 <= i < |images| ensures EntryInside(data, i) && Image(data, i) == images[i] {
      assert EntrySays(directory, i, images);
      EntryShifted(header, directory, images, i);
    }
    forall i | 0 <= i < |images| ensures Describes(data, 6 + 16 * i, SIZES[i]) {
      assert EntrySays(directory, i, images);
      DescriptionShifted(header, directory, Concat(images), 16 * i, SIZES[i]);
    }
  }

  lemma DescriptionShifted(header: seq<Byte>, directory: seq<Byte>, body: seq<Byte>, at: nat, size: nat)
    requires |header| == 6 && at + 8 <= |directory| && Describes(directory, at, size)
    ensures Describes(header + directory + body, 6 + at, size)
  {
    var data := header + directory + body;
    assert forall k :: at <= k < at + 8 ==> data[6 + k] == directory[k];
  }

  ghost predicate EntrySays(directory: seq<Byte>, k: nat, images: seq<seq<Byte>>)
    requires |images| <= |SIZES|
  {
    k < |images| && Describes(directory, 16 * k, SIZES[k]) && 16 * k + 16 <= |directory| &&
    U32At(directory, 16 * k + 8) == |images[k]| &&
    U32At(directory, 16 * k + 12) == 6 + 16 * |images| + Total(images[..k])
  }

  lemma EntryPacked(directory: seq<Byte>, images: seq<seq<Byte>>, i: nat)
    requires i < |images| == |SIZES| && |directory| == 16 * i
    requires |images[i]| < U32_LIMIT && 6 + 16 * |images| + Total(images[..i]) < U32_LIMIT
    ensures EntrySays(directory + DirectoryEntry(SIZES[i], |images[i]|, 6 + 16 * |images| + Total(images[..i])), i,
                      images)
  {
    var offset := 6 + 16 * |images| + Total(images[..i]);
    EntryDescribes(directory, SIZES[i], |images[i]|, offset);
    EntryPoints(directory, SIZES[i], |images[i]|, offset);
  }

  lemma EntryPoints(directory: seq<Byte>, size: nat, length: nat, offset: nat)
    requires 0 < size <= 256 && length < U32_LIMIT && offset < U32_LIMIT
    ensures var all, at := directory + DirectoryEntry(size, length, offset), |directory|;
            U32At(all, at + 8) == length && U32At(all, at + 12) == offset
  {
    var entry, at := DirectoryEntry(size, length, offset), |directory|;
    var all, head := directory + entry, entry[..8];
    assert entry == head + Le32(length) + Le32(offset);
    assert all[at..] == entry && At(all, at, head + Le32(length) + Le32(offset));
    AtParts(all, at, head + Le32(length), Le32(offset));
    AtParts(all, at, head, Le32(length));
    Le32At(all, at + 8, length);
    Le32At(all, at + 12, offset);
  }

  lemma EntryDescribes(directory: seq<Byte>, size: nat, length: nat, offset: nat)
    requires 0 < size <= 256 && length < U32_LIMIT && offset < U32_LIMIT
    ensures Describes(directory + DirectoryEntry(size, length, offset), |directory|, size)
  {
    var all, at := directory + DirectoryEntry(size, length, offset), |directory|;
    assert At(all, at + 4, Le16(1)) && At(all, at + 6, Le16(32));
    Le16At(all, at + 4, 1);
    Le16At(all, at + 6, 32);
  }

  lemma {:induction false} TotalGrows(images: seq<seq<Byte>>, i: nat)
    requires i < |images|
    ensures Total(images[..i]) + |images[i]| == Total(images[..i + 1]) <= Total(images)
    decreases |images| - i
  {
    assert images[..i + 1][..i] == images[..i];
    if i + 1 < |images| {
      TotalGrows(images, i + 1);
    } else {
      assert images[..i + 1] == images;
    }
  }

  lemma {:induction false} ConcatHolds(images: seq<seq<Byte>>, i: nat)
    requires i < |images|
    ensures Total(images[..i]) + |images[i]| <= Total(images)
    ensures Concat(images)[Total(images[..i])..Total(images[..i]) + |images[i]|] == images[i]
  {
    var last := |images| - 1;
    if i < last {
      ConcatHolds(images[..last], i);
      assert images[..last][..i] == images[..i];
    }
  }

  lemma FileHeaderReads(header: seq<Byte>, rest: seq<Byte>, count: nat)
    requires count < U16_LIMIT && header == [0, 0, 1, 0] + Le16(count)
    ensures U16At(header + rest, 0) == 0 && U16At(header + rest, 2) == 1 && U16At(header + rest, 4) == count
  {
    assert header[4] == Le16(count)[0] && header[5] == Le16(count)[1];
  }

  lemma EntryShifted(header: seq<Byte>, directory: seq<Byte>, images: seq<seq<Byte>>, i: nat)
    requires |header| == 6 && |directory| == 16 * |images| && |images| <= |SIZES| && EntrySays(directory, i, images)
    ensures var data := header + directory + Concat(images);
            EntryInside(data, i) && Image(data, i) == images[i]
  {
    ConcatHolds(images, i);
    ImageShifted(header, directory, Concat(images), i, Total(images[..i]), images[i]);
  }

  lemma ImageShifted(header: seq<Byte>, directory: seq<Byte>, body: seq<Byte>, i: nat, lo: nat, image: seq<Byte>)
    requires |header| == 6 && 16 * i + 16 <= |directory| && lo + |image| <= |body| && body[lo..lo + |image|] == image
    requires U32At(directory, 16 * i + 8) == |image| && U32At(directory, 16 * i + 12) == 6 + |directory| + lo
    ensures var data := header + directory + body;
            EntryInside(data, i) && Image(data, i) == image
  {
    FieldShifted(header, directory, body, 16 * i + 8);
    FieldShifted(header, directory, body, 16 * i + 12);
    SliceShift(header + directory, body, lo, lo + |image|);
    FieldsDecide(header + directory + body, i, 6 + |directory| + lo, |image|, image);
  }

  lemma FieldsDecide(data: seq<Byte>, i: nat, offset: nat, size: nat, image: seq<Byte>)
    requires 6 + 16 * i + 16 <= |data| && offset + size <= |data| && data[offset..offset + size] == image
    requires U32At(data, 6 + (16 * i + 8)) == size && U32At(data, 6 + (16 * i + 12)) == offset
    ensures EntryInside(data, i) && Image(data, i) == image
  {
  }

  lemma FieldShifted(header: seq<Byte>, directory: seq<Byte>, body: seq<Byte>, at: nat)
    requires |header| == 6 && at + 4 <= |directory|
    ensures U32At(header + directory + body, 6 + at) == U32At(directory, at)
  {
    U32Suffix(header, directory, at);
    U32Prefix(header + directory, body, 6 + at);
  }

  lemma U32Prefix(a: seq<Byte>, b: seq<Byte>, at: nat)
    requires at + 4 <= |a|
    ensures U32At(a + b, at) == U32At(a, at)
  {
  }

  lemma U32Suffix(a: seq<Byte>, b: seq<Byte>, at: nat)
    requires at + 4 <= |b|
    ensures U32At(a + b, |a| + at) == U32At(b, at)
  {
  }

  /** On what the writer wrote the parser succeeds, and the images it returns are the ones written. */
  lemma ParsingInvertsWriting(data: seq<Byte>, images: seq<seq<Byte>>, firstId: nat, parsed: seq<seq<Byte>>)
    requires |images| == |SIZES| && Holds(data, images) && firstId + |images| <= U16_LIMIT
    ensures WellFormed(data, firstId)
    ensures ImagesOf(parsed, data, Count(data)) <==> parsed == images
  {
    if ImagesOf(parsed, data, Count(data)) {
      assert forall i :: 0 <= i < |images| ==> parsed[i] == images[i];
    }
  }
}
