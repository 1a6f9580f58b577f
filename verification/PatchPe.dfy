/**
 * `patch_pe` of scripts/pe_resources.py: splices a `.rsrc` section into a PE image, with a reader that
 * follows the image's own headers to the resources.
 */
module PatchPe {
  import opened Wrappers
  import opened Bytes
  import Ico
  import opened Sorting
  import RS = ResourceSection
  import VI = VersionInfo

  const RT_ICON: nat := 3
  const RT_GROUP_ICON: nat := 14
  const RT_VERSION: nat := 16
  const RT_MANIFEST: nat := 24
  const I386: nat := 0x014C
  const AMD64: nat := 0x8664
  const ARM64: nat := 0xAA64
  const SECTION_CHARS: nat := 0x40000040

  datatype Architecture = X86 | Amd64 | Arm64

  /** The texts of `make_manifest`, one for each architecture. */
  datatype Manifests = Manifests(x86: seq<Byte>, amd64: seq<Byte>, arm64: seq<Byte>)
  {
    function For(a: Architecture): seq<Byte>
    {
      match a
      case X86 => x86
      case Amd64 => amd64
      case Arm64 => arm64
    }
  }

  datatype PeError =
    | NotMz
    | NoPeSignature
    | UnsupportedMachine
    | NoRoomForHeader
    | StructError
    | ZeroDivision
    | BadIco(icoError: Ico.IcoError)

  // ----- The headers of an image -----

  /** The fields `patch_pe` reads before it changes anything. */
  datatype Headers = Headers(coff: nat, sections: nat, optional: nat, architecture: Architecture, directory: nat,
                             sectionAlignment: nat, fileAlignment: nat, sizeOfHeaders: nat, sectionTable: nat)

  function Machine(machine: nat, magic: nat): Option<(Architecture, nat)>
  {
    if machine == AMD64 && magic == 0x20B then Some((Amd64, 112))
    else if machine == ARM64 && magic == 0x20B then Some((Arm64, 112))
    else if machine == I386 && magic == 0x10B then Some((X86, 96))
    else None
  }

  /** A slice as Python takes it: both ends clamped. */
  function Slice(b: seq<Byte>, lo: nat, hi: nat): seq<Byte>
    requires lo <= hi
  {
    if lo >= |b| then [] else if hi >= |b| then b[lo..] else b[lo..hi]
  }

  /** Checks both signatures; the COFF header follows them. */
  function FindCoff(raw: seq<Byte>): Result<nat, PeError>
  {
    if Slice(raw, 0, 2) != [0x4D, 0x5A] then Err(NotMz) else
    if 0x40 > |raw| then Err(StructError) else
    var pe := U32At(raw, 0x3C);
    if Slice(raw, pe, pe + 4) != [0x50, 0x45, 0, 0] then Err(NoPeSignature) else Ok(pe + 4)
  }

  function ReadFields(raw: seq<Byte>, coff: nat): Result<Headers, PeError>
  {
    if coff + 22 > |raw| then Err(StructError) else
    var optional := coff + 20;
    var found := Machine(U16At(raw, coff), U16At(raw, optional));
    if found == None then Err(UnsupportedMachine) else
    if optional + 64 > |raw| then Err(StructError) else
    Ok(Headers(coff, U16At(raw, coff + 2), optional, found.value.0, optional + found.value.1, U32At(raw, optional + 32),
               U32At(raw, optional + 36), U32At(raw, optional + 60), optional + U16At(raw, coff + 16)))
  }

  function ReadHeaders(raw: seq<Byte>): Result<Headers, PeError>
  {
    var coff := FindCoff(raw);
    if coff.Err? then Err(coff.error) else ReadFields(raw, coff.value)
  }

  predicate Field16(b: seq<Byte>, off: nat, v: nat)
  {
    off + 2 <= |b| && U16At(b, off) == v
  }

  predicate Field32(b: seq<Byte>, off: nat, v: nat)
  {
    off + 4 <= |b| && U32At(b, off) == v
  }

  /** Machine and magic of the image, and where its data directories begin. */
  predicate IsArchitecture(raw: seq<Byte>, h: Headers)
  {
    match h.architecture
    case Amd64 => Field16(raw, h.coff, 0x8664) && Field16(raw, h.coff + 20, 0x20B) && h.directory == h.coff + 20 + 112
    case Arm64 => Field16(raw, h.coff, 0xAA64) && Field16(raw, h.coff + 20, 0x20B) && h.directory == h.coff + 20 + 112
    case X86 => Field16(raw, h.coff, 0x14C) && Field16(raw, h.coff + 20, 0x10B) && h.directory == h.coff + 20 + 96
  }

  /** `MZ` at the start, and `PE` with two zeros before the COFF header that the bytes at 0x3C lead to. */
  predicate IsSigned(raw: seq<Byte>, coff: nat)
  {
    0x40 <= |raw| && raw[0] == 0x4D && raw[1] == 0x5A && 4 <= coff <= |raw| && Field32(raw, 0x3C, coff - 4) &&
    raw[coff - 4] == 0x50 && raw[coff - 3] == 0x45 && raw[coff - 2] == 0 && raw[coff - 1] == 0
  }

  /** The headers are read exactly from an image of a supported kind, each field from its place. */
  lemma HeadersMean(raw: seq<Byte>, h: Headers)
    ensures ReadHeaders(raw) == Ok(h) <==>
            IsSigned(raw, h.coff) && IsArchitecture(raw, h) &&
            h.optional == h.coff + 20 && Field16(raw, h.coff + 2, h.sections) &&
            h.sectionTable >= h.optional && Field16(raw, h.coff + 16, h.sectionTable - h.optional) &&
            Field32(raw, h.coff + 20 + 32, h.sectionAlignment) && Field32(raw, h.coff + 20 + 36, h.fileAlignment) &&
            Field32(raw, h.coff + 20 + 60, h.sizeOfHeaders)
  {
    SignatureMeans(raw, h.coff);
  }

  lemma SignatureMeans(raw: seq<Byte>, coff: nat)
    ensures FindCoff(raw) == Ok(coff) <==> IsSigned(raw, coff)
  {
    if 0x40 <= |raw| {
      assert Slice(raw, 0, 2) == [raw[0], raw[1]];
      var pe := U32At(raw, 0x3C);
      if pe + 4 <= |raw| {
        assert Slice(raw, pe, pe + 4) == [raw[pe], raw[pe + 1], raw[pe + 2], raw[pe + 3]];
      } else {
        assert |Slice(raw, pe, pe + 4)| < 4;
      }
    } else {
      assert FindCoff(raw).Err?;
    }
  }

  /** End of section `i` in memory, whichever of its two sizes is larger. */
  function SectionEnd(raw: seq<Byte>, table: nat, i: nat): nat
    requires table + 40 * i + 24 <= |raw|
  {
    var off := table + 40 * i;
    var virtualSize, address, rawSize := U32At(raw, off + 8), U32At(raw, off + 12), U32At(raw, off + 16);
    address + if virtualSize >= rawSize then virtualSize else rawSize
  }

  /** By its address and both its sizes, section `i` ends at most here. */
  predicate EndsBy(raw: seq<Byte>, table: nat, i: nat, end: int)
  {
    var off := table + 40 * i;
    off + 24 <= |raw| && U32At(raw, off + 12) + U32At(raw, off + 8) <= end &&
    U32At(raw, off + 12) + U32At(raw, off + 16) <= end
  }

  /** The section table is inside the file. */
  predicate TableInside(raw: seq<Byte>, table: nat, count: nat)
  {
    count == 0 || table + 40 * (count - 1) + 24 <= |raw|
  }

  /** The greatest end of the sections. */
  function MaxEnd(raw: seq<Byte>, table: nat, count: nat): nat
    requires TableInside(raw, table, count)
  {
    if count == 0 then 0 else
    var before, here := MaxEnd(raw, table, count - 1), SectionEnd(raw, table, count - 1);
    if here > before then here else before
  }

  /** It is the least end of all sections: an address is above them exactly when it is not below this one. */
  lemma {:induction false} MaxEndIsLeast(raw: seq<Byte>, table: nat, count: nat, end: nat)
    requires TableInside(raw, table, count)
    ensures MaxEnd(raw, table, count) <= end <==> forall i :: 0 <= i < count ==> EndsBy(raw, table, i, end)
  {
    if count > 0 {
      MaxEndIsLeast(raw, table, count - 1, end);
      assert SectionEnd(raw, table, count - 1) <= end <==> EndsBy(raw, table, count - 1, end);
    }
  }

  method LastSectionEnd(raw: seq<Byte>, table: nat, count: nat) returns (r: Result<nat, PeError>)
    ensures r.Ok? <==> TableInside(raw, table, count)
    ensures r.Ok? ==> r.value == MaxEnd(raw, table, count)
    ensures r.Ok? ==> forall i :: 0 <= i < count ==> EndsBy(raw, table, i, r.value)
  {
    var end: nat := 0;
    for i := 0 to count
      invariant TableInside(raw, table, i) && end == MaxEnd(raw, table, i)
      invariant forall k :: 0 <= k < i ==> EndsBy(raw, table, k, end)
    {
      if table + 40 * i + 24 > |raw| { return Err(StructError); }
      var here := SectionEnd(raw, table, i);
      var greater := if here > end then here else end;
      forall k | 0 <= k < i ensures EndsBy(raw, table, k, greater) { assert EndsBy(raw, table, k, end); }
      end := greater;
    }
    return Ok(end);
  }

  // ----- The resources to embed -----

  /** Under the ids its entries name, the group finds the images of its own ICO file. */
  ghost predicate GroupResolves(group: seq<Byte>, icons: seq<(nat, seq<Byte>)>, data: seq<Byte>, firstId: nat)
  {
    Ico.GroupHeader(group, Ico.Count(data)) && Ico.GroupLists(group, data, firstId, Ico.Count(data)) &&
    forall i :: 0 <= i < Ico.Count(data) ==>
      Ico.EntryInside(data, i) && firstId - 1 + i < |icons| && 1 <= firstId &&
      icons[firstId - 1 + i] == (firstId + i, Ico.Image(data, i))
  }

  /** The ids of the icons are exactly 1, 2, ... */
  predicate NumberedFromOne(icons: seq<(nat, seq<Byte>)>)
  {
    forall i :: 0 <= i < |icons| ==> icons[i].0 == i + 1
  }

  ghost predicate IconsAndGroups(icons: seq<(nat, seq<Byte>)>, groups: seq<(nat, seq<Byte>)>,
                                 ico: seq<Byte>, brand: Option<seq<Byte>>)
  {
    NumberedFromOne(icons) &&
    |icons| == Ico.Count(ico) + (if brand.Some? then Ico.Count(brand.value) else 0) &&
    |groups| == (if brand.Some? then 2 else 1) &&
    groups[0].0 == 1 && GroupResolves(groups[0].1, icons, ico, 1) &&
    (brand.Some? ==> groups[1].0 == 2 && GroupResolves(groups[1].1, icons, brand.value, Ico.Count(ico) + 1))
  }

  predicate IconsParse(ico: seq<Byte>, brand: Option<seq<Byte>>)
  {
    Ico.WellFormed(ico, 1) && (brand.Some? ==> Ico.WellFormed(brand.value, Ico.Count(ico) + 1))
  }

  /** `images` under consecutive ids. */
  function Numbered(images: seq<seq<Byte>>, firstId: nat): (r: seq<(nat, seq<Byte>)>)
    ensures |r| == |images|
    ensures forall i :: 0 <= i < |r| ==> r[i] == (firstId + i, images[i])
  {
    seq(|images|, i requires 0 <= i < |images| => (firstId + i, images[i]))
  }

  lemma Resolves(group: seq<Byte>, before: seq<(nat, seq<Byte>)>, images: seq<seq<Byte>>, after: seq<(nat, seq<Byte>)>,
                 data: seq<Byte>)
    requires Ico.ImagesOf(images, data, Ico.Count(data))
    requires Ico.GroupHeader(group, Ico.Count(data)) && Ico.GroupLists(group, data, |before| + 1, Ico.Count(data))
    ensures GroupResolves(group, before + Numbered(images, |before| + 1) + after, data, |before| + 1)
  {
    var icons := before + Numbered(images, |before| + 1) + after;
    forall i | 0 <= i < Ico.Count(data)
      ensures Ico.EntryInside(data, i) && icons[|before| + i] == (|before| + 1 + i, Ico.Image(data, i))
    {
      assert images[i] == Ico.Image(data, i);
      assert icons[|before| + i] == Numbered(images, |before| + 1)[i];
    }
  }

  lemma OneFileResolves(group: seq<Byte>, images: seq<seq<Byte>>, ico: seq<Byte>)
    requires Ico.ImagesOf(images, ico, Ico.Count(ico))
    requires Ico.GroupHeader(group, Ico.Count(ico)) && Ico.GroupLists(group, ico, 1, Ico.Count(ico))
    ensures IconsAndGroups(Numbered(images, 1), [(1, group)], ico, None)
  {
    var none: seq<(nat, seq<Byte>)>, icons := [], Numbered(images, 1);
    EmptyAround(none, icons, none);
    Resolves(group, none, images, none, ico);
    OneGroup(icons, group, ico);
  }

  lemma EmptyAround<T>(before: seq<T>, s: seq<T>, after: seq<T>)
    requires |before| == |after| == 0
    ensures before + s + after == s
  {
  }

  lemma OneGroup(icons: seq<(nat, seq<Byte>)>, group: seq<Byte>, ico: seq<Byte>)
    requires NumberedFromOne(icons) && |icons| == Ico.Count(ico) && GroupResolves(group, icons, ico, 1)
    ensures IconsAndGroups(icons, [(1, group)], ico, None)
  {
  }

  lemma TwoFilesResolve(group: seq<Byte>, images: seq<seq<Byte>>, ico: seq<Byte>,
                        brandGroup: seq<Byte>, brandImages: seq<seq<Byte>>, brand: seq<Byte>)
    requires Ico.ImagesOf(images, ico, Ico.Count(ico)) && Ico.ImagesOf(brandImages, brand, Ico.Count(brand))
    requires Ico.GroupHeader(group, Ico.Count(ico)) && Ico.GroupLists(group, ico, 1, Ico.Count(ico))
    requires Ico.GroupHeader(brandGroup, Ico.Count(brand))
    requires Ico.GroupLists(brandGroup, brand, |images| + 1, Ico.Count(brand))
    ensures IconsAndGroups(Numbered(images, 1) + Numbered(brandImages, |images| + 1), [(1, group), (2, brandGroup)],
                           ico, Some(brand))
  {
    var icons, brandIcons := Numbered(images, 1), Numbered(brandImages, |images| + 1);
    assert GroupResolves(group, icons + brandIcons, ico, 1) by {
      Resolves(group, [], images, brandIcons, ico);
      assert [] + icons + brandIcons == icons + brandIcons;
    }
    assert GroupResolves(brandGroup, icons + brandIcons, brand, |images| + 1) by {
      Resolves(brandGroup, icons, brandImages, [], brand);
      assert icons + brandIcons + [] == icons + brandIcons;
    }
    TwoGroups(icons + brandIcons, group, ico, brandGroup, brand);
  }

  lemma TwoGroups(icons: seq<(nat, seq<Byte>)>, group: seq<Byte>, ico: seq<Byte>, brandGroup: seq<Byte>,
                  brand: seq<Byte>)
    requires NumberedFromOne(icons) && |icons| == Ico.Count(ico) + Ico.Count(brand)
    requires GroupResolves(group, icons, ico, 1) && GroupResolves(brandGroup, icons, brand, Ico.Count(ico) + 1)
    ensures IconsAndGroups(icons, [(1, group), (2, brandGroup)], ico, Some(brand))
  {
  }

  method CollectIcons(ico: seq<Byte>, brand: Option<seq<Byte>>)
    returns (r: Result<(seq<(nat, seq<Byte>)>, seq<(nat, seq<Byte>)>), PeError>)
    ensures r.Ok? <==> IconsParse(ico, brand)
    ensures r.Ok? ==> IconsAndGroups(r.value.0, r.value.1, ico, brand)
    ensures r.Ok? ==> |r.value.0| <= 2 * Ico.MAX_IMAGES
  {
    var first := Ico.ParseIco(ico, 1);
    if first.Err? { return Err(BadIco(first.error)); }
    var (images, group) := first.value;
    var icons := Numbered(images, 1);
    var groups := [(1, group)];
    if brand.None? {
      OneFileResolves(group, images, ico);
      return Ok((icons, groups));
    }
    var firstBrandId := |icons| + 1;
    var second := Ico.ParseIco(brand.value, firstBrandId);
    if second.Err? { return Err(BadIco(second.error)); }
    var (brandImages, brandGroup) := second.value;
    TwoFilesResolve(group, images, ico, brandGroup, brandImages, brand.value);
    icons := icons + Numbered(brandImages, firstBrandId);
    groups := groups + [(2, brandGroup)];
    assert groups == [(1, group), (2, brandGroup)];
    return Ok((icons, groups));
  }

  function ResourceTable(icons: seq<(nat, seq<Byte>)>, groups: seq<(nat, seq<Byte>)>, versionInfo: seq<Byte>,
                         manifest: seq<Byte>): RS.ResourceTable
  {
    [(RT_ICON, icons), (RT_GROUP_ICON, groups), (RT_VERSION, [(1, versionInfo)]), (RT_MANIFEST, [(1, manifest)])]
  }

  lemma ResourceTableAddressable(icons: seq<(nat, seq<Byte>)>, groups: seq<(nat, seq<Byte>)>, versionInfo: seq<Byte>,
                                 manifest: seq<Byte>)
    requires |icons| <= 2 * Ico.MAX_IMAGES && |groups| <= 2
    ensures RS.Addressable(ResourceTable(icons, groups, versionInfo, manifest))
  {
    var table := ResourceTable(icons, groups, versionInfo, manifest);
    RS.DirectoryEndIs(table);
    var t1 := table[1..];
    var t2 := t1[1..];
    var t3 := t2[1..];
    var t4: RS.ResourceTable := t3[1..];
    assert t4 == [];
    assert RS.Items(t3) == 1 && RS.Items(t2) == 2 && RS.Items(t1) == |groups| + 2;
  }

  // ----- The splice -----

  /** `.rsrc`, padded to eight bytes. */
  function SectionName(): (b: seq<Byte>)
    ensures |b| == 8
  {
    [0x2E, 0x72, 0x73, 0x72, 0x63, 0, 0, 0]
  }

  /** No relocations, no line numbers, and the characteristics. */
  function SectionTail(): (b: seq<Byte>)
    ensures |b| == 16
  {
    Le32(0) + Le32(0) + Le16(0) + Le16(0) + Le32(SECTION_CHARS)
  }

  /** The 40-byte section header. */
  function SectionHeader(size: nat, rva: nat, rawSize: nat, rawPtr: nat): (b: seq<Byte>)
    requires size < U32_LIMIT && rva < U32_LIMIT && rawSize < U32_LIMIT && rawPtr < U32_LIMIT
    ensures |b| == 40
  {
    SectionName() + (Le32(size) + (Le32(rva) + (Le32(rawSize) + (Le32(rawPtr) + SectionTail()))))
  }

  /** `b[lo:lo + len(part)] = part`: past the end the slice is empty and the bytes are appended. */
  function SliceAssign(b: seq<Byte>, lo: nat, part: seq<Byte>): seq<Byte>
  {
    if lo + |part| <= |b| then Splice(b, lo, part)
    else if lo <= |b| then b[..lo] + part
    else b + part
  }

  /** `struct.pack_into` with a 16-bit value, or nothing when value or place do not fit. */
  function Pack16(b: seq<Byte>, off: nat, v: nat): Option<seq<Byte>>
  {
    if v < U16_LIMIT && off + 2 <= |b| then Some(Splice(b, off, Le16(v))) else None
  }

  function SlotOf(h: Headers): nat
  {
    h.sectionTable + 40 * h.sections
  }

  /**
   * The data directories lie inside the optional header, the headers inside the file, and do not cover the DOS stub.
   */
  predicate RoomyHeaders(raw: seq<Byte>, h: Headers)
  {
    0x44 <= h.coff && h.optional == h.coff + 20 && h.optional + 96 <= h.directory &&
    h.directory + 24 <= h.sectionTable &&
    SlotOf(h) + 40 <= h.sizeOfHeaders <= |raw|
  }

  /** The bytes that may change: the new header slot and the patched header fields. */
  predicate MayChange(h: Headers, k: nat)
  {
    SlotOf(h) <= k < SlotOf(h) + 40 || h.coff + 2 <= k < h.coff + 4 || h.optional + 8 <= k < h.optional + 12 ||
    h.optional + 56 <= k < h.optional + 60 || h.optional + 64 <= k < h.optional + 68 ||
    h.directory + 16 <= k < h.directory + 24
  }

  /** `a` and `b` agree up to `|a|` except where change is allowed. */
  ghost predicate KeepsOldBytes(a: seq<Byte>, b: seq<Byte>, h: Headers)
  {
    |a| <= |b| && forall k {:trigger b[k]} :: 0 <= k < |a| && !MayChange(h, k) ==> b[k] == a[k]
  }

  method ExtendWithSection(raw: seq<Byte>, rsrc: seq<Byte>, fileAlignment: nat)
    returns (r: seq<Byte>, rawPtr: nat, rawSize: nat)
    requires fileAlignment > 0
    ensures rawPtr == Align(|raw|, fileAlignment) && rawSize == Align(|rsrc|, fileAlignment)
    ensures |r| == rawPtr + rawSize && raw <= r && At(r, rawPtr, rsrc)
    ensures forall k :: |raw| <= k < rawPtr || rawPtr + |rsrc| <= k < |r| ==> r[k] == 0
  {
    rawPtr := Align(|raw|, fileAlignment);
    rawSize := Align(|rsrc|, fileAlignment);
    r := raw;
    if |r| < rawPtr { r := r + Zeros(rawPtr - |r|); }
    ghost var padded := r;
    r := r + rsrc;
    r := r + Zeros(rawSize - |rsrc|);
    assert r[|padded|..|padded| + |rsrc|] == rsrc;
  }

  /** What the patched image says about its new section. */
  datatype Section = Section(size: nat, rva: nat, rawSize: nat, rawPtr: nat)

  ghost predicate SlotWritten(b: seq<Byte>, h: Headers, s: Section)
  {
    s.size < U32_LIMIT && s.rva < U32_LIMIT && s.rawSize < U32_LIMIT && s.rawPtr < U32_LIMIT &&
    At(b, SlotOf(h), SectionHeader(s.size, s.rva, s.rawSize, s.rawPtr))
  }

  /** The new slot and all patched fields. */
  ghost predicate FieldsPatched(b: seq<Byte>, h: Headers, s: Section, initialized: nat, image: nat)
  {
    SlotWritten(b, h, s) && Field16(b, h.coff + 2, h.sections + 1) && Field32(b, h.optional + 8, initialized) &&
    Field32(b, h.optional + 56, image) && Field32(b, h.directory + 16, s.rva) && Field32(b, h.directory + 20, s.size) &&
    Field32(b, h.optional + 64, 0)
  }

  /** SizeOfInitializedData grows by the section, SizeOfImage becomes `image`. */
  ghost predicate HeadersPatched(raw: seq<Byte>, b: seq<Byte>, h: Headers, s: Section, image: nat)
  {
    h.optional + 12 <= |raw| && FieldsPatched(b, h, s, U32At(raw, h.optional + 8) + s.rawSize, image)
  }

  /** Writes at fixed places, applied in order. */
  type Patches = seq<(nat, seq<Byte>)>

  predicate InRange(size: nat, patches: Patches)
  {
    forall i :: 0 <= i < |patches| ==> patches[i].0 + |patches[i].1| <= size
  }

  predicate Apart(patches: Patches)
  {
    forall i, j :: 0 <= i < j < |patches| ==>
      patches[i].0 + |patches[i].1| <= patches[j].0 || patches[j].0 + |patches[j].1| <= patches[i].0
  }

  function Apply(b: seq<Byte>, patches: Patches): (r: seq<Byte>)
    requires InRange(|b|, patches)
    ensures |r| == |b|
  {
    if patches == [] then b else
    var last := |patches| - 1;
    Splice(Apply(b, patches[..last]), patches[last].0, patches[last].1)
  }

  lemma {:induction false} ApplyLands(b: seq<Byte>, patches: Patches, i: nat)
    requires InRange(|b|, patches) && Apart(patches) && i < |patches|
    ensures At(Apply(b, patches), patches[i].0, patches[i].1)
  {
    var last := |patches| - 1;
    if i < last {
      ApplyLands(b, patches[..last], i);
      SpliceKeeps(Apply(b, patches[..last]), patches[last].0, patches[last].1, patches[i].0, patches[i].1);
    }
  }

  lemma {:induction false} ApplyKeeps(b: seq<Byte>, patches: Patches, k: nat)
    requires InRange(|b|, patches) && k < |b|
    requires forall i :: 0 <= i < |patches| ==> !(patches[i].0 <= k < patches[i].0 + |patches[i].1|)
    ensures Apply(b, patches)[k] == b[k]
  {
    if patches != [] {
      ApplyKeeps(b, patches[..|patches| - 1], k);
    }
  }

  lemma ApplyKeepsAt(b: seq<Byte>, patches: Patches, off: nat, part: seq<Byte>)
    requires InRange(|b|, patches) && At(b, off, part)
    requires forall i :: 0 <= i < |patches| ==> patches[i].0 + |patches[i].1| <= off || off + |part| <= patches[i].0
    ensures At(Apply(b, patches), off, part)
  {
    var r := Apply(b, patches);
    forall k | off <= k < off + |part| ensures r[k] == b[k] {
      ApplyKeeps(b, patches, k);
    }
    assert r[off..off + |part|] == b[off..off + |part|];
  }

  predicate Fits32(s: Section)
  {
    s.size < U32_LIMIT && s.rva < U32_LIMIT && s.rawSize < U32_LIMIT && s.rawPtr < U32_LIMIT
  }

  /** The last five patches: SizeOfInitializedData, SizeOfImage, the resource directory, the checksum. */
  function FieldPatches(h: Headers, s: Section, initialized: nat, image: nat): Patches
    requires Fits32(s) && initialized < U32_LIMIT && image < U32_LIMIT
  {
    [ (h.optional + 8, Le32(initialized)),
      (h.optional + 56, Le32(image)),
      (h.directory + 16, Le32(s.rva)),
      (h.directory + 20, Le32(s.size)),
      (h.optional + 64, Le32(0)) ]
  }

  /** The section header goes into its slot and the section count grows; nothing when packing raises. */
  function PatchSlot(b: seq<Byte>, h: Headers, s: Section): Option<seq<Byte>>
    requires Fits32(s)
  {
    Pack16(SliceAssign(b, SlotOf(h), SectionHeader(s.size, s.rva, s.rawSize, s.rawPtr)), h.coff + 2, h.sections + 1)
  }

  function PatchFields(b: seq<Byte>, h: Headers, s: Section, initialized: nat, image: nat): Option<seq<Byte>>
    requires Fits32(s)
  {
    if initialized >= U32_LIMIT || image >= U32_LIMIT || !InRange(|b|, FieldPatches(h, s, initialized, image)) then None
    else Some(Apply(b, FieldPatches(h, s, initialized, image)))
  }

  /** The header patches, in order; nothing when one of them raises. */
  function PatchHeaders(b: seq<Byte>, h: Headers, s: Section, image: nat): Option<seq<Byte>>
  {
    if !Fits32(s) then None else
    var b2 := PatchSlot(b, h, s);
    if b2 == None || h.optional + 12 > |b2.value| then None else
    PatchFields(b2.value, h, s, U32At(b2.value, h.optional + 8) + s.rawSize, image)
  }

  /** The first two patches land and keep the old SizeOfInitializedData. */
  lemma FirstPatches(raw: seq<Byte>, b: seq<Byte>, h: Headers, s: Section, b2: seq<Byte>)
    requires RoomyHeaders(raw, h) && raw <= b && Fits32(s) && h.sections + 1 < U16_LIMIT
    requires PatchSlot(b, h, s) == Some(b2)
    ensures |b2| == |b| && SlotWritten(b2, h, s) && At(b2, h.coff + 2, Le16(h.sections + 1))
    ensures U32At(b2, h.optional + 8) == U32At(raw, h.optional + 8)
    ensures KeepsOldBytes(b, b2, h)
  {
    var header := SectionHeader(s.size, s.rva, s.rawSize, s.rawPtr);
    SlotTwice(raw, b, h, header, Le16(h.sections + 1), b2);
  }

  /** Two writes: 40 bytes into the new slot, two bytes over the section count. */
  lemma SlotTwice(raw: seq<Byte>, b: seq<Byte>, h: Headers, header: seq<Byte>, count: seq<Byte>, b2: seq<Byte>)
    requires RoomyHeaders(raw, h) && raw <= b && |header| == 40 && |count| == 2
    requires b2 == Splice(Splice(b, SlotOf(h), header), h.coff + 2, count)
    ensures |b2| == |b| && At(b2, SlotOf(h), header) && At(b2, h.coff + 2, count)
    ensures U32At(b2, h.optional + 8) == U32At(raw, h.optional + 8)
    ensures KeepsOldBytes(b, b2, h)
  {
    SpliceKeeps(Splice(b, SlotOf(h), header), h.coff + 2, count, SlotOf(h), header);
    assert forall k :: h.optional + 8 <= k < h.optional + 12 ==> b2[k] == raw[k];
  }

  lemma FieldPatchesApart(raw: seq<Byte>, size: nat, h: Headers, s: Section, initialized: nat, image: nat)
    requires RoomyHeaders(raw, h) && |raw| <= size && Fits32(s) && initialized < U32_LIMIT && image < U32_LIMIT
    ensures InRange(size, FieldPatches(h, s, initialized, image)) && Apart(FieldPatches(h, s, initialized, image))
  {
  }

  /** The five fields after the first two patches. */
  ghost predicate FieldsSet(p: seq<Byte>, h: Headers, s: Section, initialized: nat, image: nat)
  {
    Field32(p, h.optional + 8, initialized) && Field32(p, h.optional + 56, image) &&
    Field32(p, h.directory + 16, s.rva) && Field32(p, h.directory + 20, s.size) && Field32(p, h.optional + 64, 0)
  }

  lemma FiveLand(b2: seq<Byte>, h: Headers, s: Section, initialized: nat, image: nat, p: seq<Byte>)
    requires Fits32(s) && initialized < U32_LIMIT && image < U32_LIMIT
    requires Apart(FieldPatches(h, s, initialized, image))
    requires PatchFields(b2, h, s, initialized, image) == Some(p)
    ensures FieldsSet(p, h, s, initialized, image)
  {
    var list := FieldPatches(h, s, initialized, image);
    assert Field32(p, h.optional + 8, initialized) by { FieldLands(b2, list, 0, initialized); }
    assert Field32(p, h.optional + 56, image) by { FieldLands(b2, list, 1, image); }
    assert Field32(p, h.directory + 16, s.rva) by { FieldLands(b2, list, 2, s.rva); }
    assert Field32(p, h.directory + 20, s.size) by { FieldLands(b2, list, 3, s.size); }
    assert Field32(p, h.optional + 64, 0) by { FieldLands(b2, list, 4, 0); }
  }

  /** They leave the slot and the section count alone. */
  lemma FirstTwoStay(raw: seq<Byte>, b2: seq<Byte>, h: Headers, s: Section, initialized: nat, image: nat, p: seq<Byte>)
    requires RoomyHeaders(raw, h) && |raw| <= |b2| && Fits32(s)
    requires SlotWritten(b2, h, s) && h.sections + 1 < U16_LIMIT && At(b2, h.coff + 2, Le16(h.sections + 1))
    requires PatchFields(b2, h, s, initialized, image) == Some(p)
    ensures SlotWritten(p, h, s) && Field16(p, h.coff + 2, h.sections + 1)
  {
    var list := FieldPatches(h, s, initialized, image);
    assert SlotWritten(p, h, s) by {
      ApplyKeepsAt(b2, list, SlotOf(h), SectionHeader(s.size, s.rva, s.rawSize, s.rawPtr));
    }
    assert Field16(p, h.coff + 2, h.sections + 1) by {
      ApplyKeepsAt(b2, list, h.coff + 2, Le16(h.sections + 1));
      Le16At(p, h.coff + 2, h.sections + 1);
    }
  }

  /** The other five land as well and leave the first two alone. */
  lemma FieldsLand(raw: seq<Byte>, b2: seq<Byte>, h: Headers, s: Section, initialized: nat, image: nat, p: seq<Byte>)
    requires RoomyHeaders(raw, h) && |raw| <= |b2| && Fits32(s)
    requires SlotWritten(b2, h, s) && h.sections + 1 < U16_LIMIT && At(b2, h.coff + 2, Le16(h.sections + 1))
    requires PatchFields(b2, h, s, initialized, image) == Some(p)
    ensures |p| == |b2| && FieldsPatched(p, h, s, initialized, image)
    ensures KeepsOldBytes(b2, p, h)
  {
    var list := FieldPatches(h, s, initialized, image);
    FieldPatchesApart(raw, |b2|, h, s, initialized, image);
    FiveLand(b2, h, s, initialized, image, p);
    FirstTwoStay(raw, b2, h, s, initialized, image, p);
    FieldPatchesKeep(b2, h, s, initialized, image);
  }

  lemma FieldPatchesKeep(b2: seq<Byte>, h: Headers, s: Section, initialized: nat, image: nat)
    requires Fits32(s) && initialized < U32_LIMIT && image < U32_LIMIT
    requires InRange(|b2|, FieldPatches(h, s, initialized, image))
    ensures KeepsOldBytes(b2, Apply(b2, FieldPatches(h, s, initialized, image)), h)
  {
    var list := FieldPatches(h, s, initialized, image);
    forall k | 0 <= k < |b2| && !MayChange(h, k) ensures Apply(b2, list)[k] == b2[k] {
      forall i | 0 <= i < |list| ensures !(list[i].0 <= k < list[i].0 + |list[i].1|) {
        PatchMayChange(h, s, initialized, image, i, k);
      }
      ApplyKeeps(b2, list, k);
    }
  }

  lemma PatchMayChange(h: Headers, s: Section, initialized: nat, image: nat, i: nat, k: nat)
    requires Fits32(s) && initialized < U32_LIMIT && image < U32_LIMIT && i < |FieldPatches(h, s, initialized, image)|
    ensures var (off, part) := FieldPatches(h, s, initialized, image)[i];
            off <= k < off + |part| ==> MayChange(h, k)
  {
  }

  lemma FieldLands(b: seq<Byte>, patches: Patches, i: nat, v: nat)
    requires InRange(|b|, patches) && Apart(patches) && i < |patches| && v < U32_LIMIT && patches[i].1 == Le32(v)
    ensures Field32(Apply(b, patches), patches[i].0, v)
  {
    ApplyLands(b, patches, i);
    Le32At(Apply(b, patches), patches[i].0, v);
  }

  lemma KeepsTransitive(a: seq<Byte>, b: seq<Byte>, c: seq<Byte>, h: Headers)
    requires KeepsOldBytes(a, b, h) && KeepsOldBytes(b, c, h)
    ensures KeepsOldBytes(a, c, h)
  {
    forall k | 0 <= k < |a| && !MayChange(h, k) ensures c[k] == a[k] {
      assert b[k] == a[k];
    }
  }

  lemma PatchesSplit(b: seq<Byte>, h: Headers, s: Section, image: nat, p: seq<Byte>) returns (b2: seq<Byte>)
    requires PatchHeaders(b, h, s, image) == Some(p)
    ensures Fits32(s) && h.sections + 1 < U16_LIMIT && PatchSlot(b, h, s) == Some(b2) && h.optional + 12 <= |b2|
    ensures PatchFields(b2, h, s, U32At(b2, h.optional + 8) + s.rawSize, image) == Some(p)
  {
    b2 := PatchSlot(b, h, s).value;
  }

  /** After the first two patches SizeOfInitializedData still reads as in the old file. */
  lemma PatchesFollow(raw: seq<Byte>, b: seq<Byte>, h: Headers, s: Section, image: nat, p: seq<Byte>)
    returns (b2: seq<Byte>)
    requires RoomyHeaders(raw, h) && raw <= b && PatchHeaders(b, h, s, image) == Some(p)
    ensures Fits32(s) && h.sections + 1 < U16_LIMIT && PatchSlot(b, h, s) == Some(b2)
    ensures PatchFields(b2, h, s, U32At(raw, h.optional + 8) + s.rawSize, image) == Some(p)
  {
    b2 := PatchesSplit(b, h, s, image, p);
    assert U32At(b2, h.optional + 8) == U32At(raw, h.optional + 8) by { FirstPatches(raw, b, h, s, b2); }
  }

  /** On a roomy header every patch lands, none disturbs another, and all other bytes stay. */
  lemma PatchesLand(raw: seq<Byte>, b: seq<Byte>, h: Headers, s: Section, image: nat, p: seq<Byte>)
    requires RoomyHeaders(raw, h) && raw <= b && PatchHeaders(b, h, s, image) == Some(p)
    ensures |p| == |b| && HeadersPatched(raw, p, h, s, image) && KeepsOldBytes(b, p, h)
  {
    var b2 := PatchesFollow(raw, b, h, s, image, p);
    BothPatchesLand(raw, b, b2, h, s, U32At(raw, h.optional + 8) + s.rawSize, image, p);
  }

  lemma BothPatchesLand(raw: seq<Byte>, b: seq<Byte>, b2: seq<Byte>, h: Headers, s: Section,
                        initialized: nat, image: nat, p: seq<Byte>)
    requires RoomyHeaders(raw, h) && raw <= b && Fits32(s) && h.sections + 1 < U16_LIMIT
    requires PatchSlot(b, h, s) == Some(b2) && PatchFields(b2, h, s, initialized, image) == Some(p)
    ensures |p| == |b| && FieldsPatched(p, h, s, initialized, image) && KeepsOldBytes(b, p, h)
  {
    FirstPatches(raw, b, h, s, b2);
    FieldsLand(raw, b2, h, s, initialized, image, p);
    KeepsTransitive(b, b2, p, h);
  }

  // ----- The reader of an image -----

  /** The first section whose memory holds `rva`. */
  function FindSection(pe: seq<Byte>, table: nat, count: nat, rva: nat, from: nat): (r: Option<nat>)
    requires from <= count
    ensures r.Some? ==> r.value + 40 <= |pe| && U32At(pe, r.value + 12) <= rva
    decreases count - from
  {
    if from == count then None else
    var off := table + 40 * from;
    if off + 40 > |pe| then None else
    if U32At(pe, off + 12) <= rva < U32At(pe, off + 12) + U32At(pe, off + 8) then Some(off)
    else FindSection(pe, table, count, rva, from + 1)
  }

  /** The bytes of the resource directory and its address, through the section that holds it. */
  function DirectoryBytes(pe: seq<Byte>, h: Headers): Option<(seq<Byte>, nat)>
  {
    if h.directory + 24 > |pe| then None else
    var rva, size := U32At(pe, h.directory + 16), U32At(pe, h.directory + 20);
    var found := FindSection(pe, h.sectionTable, h.sections, rva, 0);
    if found == None then None else
    var start := U32At(pe, found.value + 20) + (rva - U32At(pe, found.value + 12));
    if start + size > |pe| then None else Some((pe[start..start + size], rva))
  }

  function ReadSection(bytes: seq<Byte>, rva: nat): Option<RS.Resource>
  {
    RS.ReadDirectory(bytes, rva, 0, 3)
  }

  /** The resources an image carries. */
  function ResourcesOf(pe: seq<Byte>): Option<RS.Resource>
  {
    var headers := ReadHeaders(pe);
    if headers.Err? then None else
    var bytes := DirectoryBytes(pe, headers.value);
    if bytes == None then None else ReadSection(bytes.value.0, bytes.value.1)
  }

  // ----- patch_pe -----

  /**
   * Where the spliced section lies: aligned, above every old section in memory and behind every old byte in the file.
   */
  ghost predicate SectionPlaced(raw: seq<Byte>, h: Headers, s: Section)
  {
    h.sectionAlignment > 0 && h.fileAlignment > 0 &&
    s.rva % h.sectionAlignment == 0 && s.rawPtr % h.fileAlignment == 0 && s.rawSize % h.fileAlignment == 0 &&
    AboveSections(raw, h, s.rva) && |raw| <= s.rawPtr && s.size <= s.rawSize
  }

  /** It lies no further than that needs: one step of alignment less would not do. */
  ghost predicate SectionAdjacent(raw: seq<Byte>, h: Headers, s: Section)
  {
    (s.rva >= h.sectionAlignment ==> !AboveSections(raw, h, s.rva - h.sectionAlignment)) &&
    s.rawPtr < |raw| + h.fileAlignment && s.rawSize < s.size + h.fileAlignment
  }

  ghost predicate AboveSections(raw: seq<Byte>, h: Headers, rva: int)
  {
    forall i :: 0 <= i < h.sections ==> EndsBy(raw, h.sectionTable, i, rva)
  }

  /** SizeOfImage: the aligned end of the new section, so nothing of it lies beyond. */
  ghost predicate ImageCovers(h: Headers, s: Section, image: nat)
  {
    h.sectionAlignment > 0 && image % h.sectionAlignment == 0 &&
    s.rva + s.size <= image < s.rva + s.size + h.sectionAlignment
  }

  lemma SlotReads(p: seq<Byte>, h: Headers, s: Section)
    requires SlotWritten(p, h, s)
    ensures var off := SlotOf(h);
            off + 40 <= |p| && U32At(p, off + 8) == s.size && U32At(p, off + 12) == s.rva &&
            U32At(p, off + 16) == s.rawSize && U32At(p, off + 20) == s.rawPtr
  {
    var off := SlotOf(h);
    var tail4 := Le32(s.rawPtr) + SectionTail();
    var tail3 := Le32(s.rawSize) + tail4;
    var tail2 := Le32(s.rva) + tail3;
    AtParts(p, off, SectionName(), Le32(s.size) + tail2);
    AtParts(p, off + 8, Le32(s.size), tail2);
    AtParts(p, off + 12, Le32(s.rva), tail3);
    AtParts(p, off + 16, Le32(s.rawSize), tail4);
    AtParts(p, off + 20, Le32(s.rawPtr), SectionTail());
    Le32At(p, off + 8, s.size);
    Le32At(p, off + 12, s.rva);
    Le32At(p, off + 16, s.rawSize);
    Le32At(p, off + 20, s.rawPtr);
  }

  /** The headers count the new section, and its header and the resource directory say where it is. */
  ghost predicate Points(p: seq<Byte>, h: Headers, s: Section)
  {
    Field16(p, h.coff + 2, h.sections + 1) && Field32(p, h.directory + 16, s.rva) &&
    Field32(p, h.directory + 20, s.size) &&
    SlotOf(h) + 40 <= |p| && Field32(p, SlotOf(h) + 8, s.size) && Field32(p, SlotOf(h) + 12, s.rva) &&
    Field32(p, SlotOf(h) + 20, s.rawPtr)
  }

  lemma PatchedPoints(raw: seq<Byte>, p: seq<Byte>, h: Headers, s: Section, image: nat)
    requires HeadersPatched(raw, p, h, s, image)
    ensures Points(p, h, s)
  {
    SlotReads(p, h, s);
  }

  lemma Same16(a: seq<Byte>, b: seq<Byte>, h: Headers, off: nat)
    requires KeepsOldBytes(a, b, h) && off + 2 <= |a| && !MayChange(h, off) && !MayChange(h, off + 1)
    ensures U16At(b, off) == U16At(a, off)
  {
  }

  lemma Same32(a: seq<Byte>, b: seq<Byte>, h: Headers, off: nat)
    requires KeepsOldBytes(a, b, h) && off + 4 <= |a|
    requires !MayChange(h, off) && !MayChange(h, off + 1) && !MayChange(h, off + 2) && !MayChange(h, off + 3)
    ensures U32At(b, off) == U32At(a, off)
  {
    Same16(a, b, h, off);
    Same16(a, b, h, off + 2);
  }

  /** The fields `ReadHeaders` looks at, besides the section count, are those of `raw`. */
  ghost predicate HeadersAgree(raw: seq<Byte>, p: seq<Byte>, h: Headers)
  {
    h.coff >= 0x44 && h.optional == h.coff + 20 && h.optional + 68 <= |raw| <= |p| &&
    MagicAgrees(raw, p, h) && FieldsAgree(raw, p, h)
  }

  /** What leads to the COFF header. */
  ghost predicate MagicAgrees(raw: seq<Byte>, p: seq<Byte>, h: Headers)
    requires 0x44 <= h.coff <= |raw| <= |p|
  {
    p[0] == raw[0] && p[1] == raw[1] && U32At(p, 0x3C) == U32At(raw, 0x3C) &&
    p[h.coff - 4..h.coff] == raw[h.coff - 4..h.coff]
  }

  /** The fields of the COFF and the optional header. */
  ghost predicate FieldsAgree(raw: seq<Byte>, p: seq<Byte>, h: Headers)
    requires h.optional == h.coff + 20 && h.optional + 68 <= |raw| <= |p|
  {
    U16At(p, h.coff) == U16At(raw, h.coff) && U16At(p, h.coff + 16) == U16At(raw, h.coff + 16) &&
    U16At(p, h.optional) == U16At(raw, h.optional) && U32At(p, h.optional + 32) == U32At(raw, h.optional + 32) &&
    U32At(p, h.optional + 36) == U32At(raw, h.optional + 36) && U32At(p, h.optional + 60) == U32At(raw, h.optional + 60)
  }

  lemma KeptHeadersAgree(raw: seq<Byte>, p: seq<Byte>, h: Headers)
    requires RoomyHeaders(raw, h) && KeepsOldBytes(raw, p, h)
    ensures HeadersAgree(raw, p, h)
  {
    KeptMagicAgrees(raw, p, h);
    KeptFieldsAgree(raw, p, h);
  }

  lemma KeptMagicAgrees(raw: seq<Byte>, p: seq<Byte>, h: Headers)
    requires RoomyHeaders(raw, h) && KeepsOldBytes(raw, p, h)
    ensures MagicAgrees(raw, p, h)
  {
    assert p[0] == raw[0] && p[1] == raw[1] by { assert !MayChange(h, 0) && !MayChange(h, 1); }
    assert U32At(p, 0x3C) == U32At(raw, 0x3C) by { Same32(raw, p, h, 0x3C); }
    assert p[h.coff - 4..h.coff] == raw[h.coff - 4..h.coff] by {
      forall k | h.coff - 4 <= k < h.coff ensures p[k] == raw[k] { assert !MayChange(h, k); }
    }
  }

  lemma KeptFieldsAgree(raw: seq<Byte>, p: seq<Byte>, h: Headers)
    requires RoomyHeaders(raw, h) && KeepsOldBytes(raw, p, h)
    ensures FieldsAgree(raw, p, h)
  {
    assert U16At(p, h.coff) == U16At(raw, h.coff) by { Same16(raw, p, h, h.coff); }
    assert U16At(p, h.coff + 16) == U16At(raw, h.coff + 16) by { Same16(raw, p, h, h.coff + 16); }
    assert U16At(p, h.optional) == U16At(raw, h.optional) by { Same16(raw, p, h, h.optional); }
    assert U32At(p, h.optional + 32) == U32At(raw, h.optional + 32) by { Same32(raw, p, h, h.optional + 32); }
    assert U32At(p, h.optional + 36) == U32At(raw, h.optional + 36) by { Same32(raw, p, h, h.optional + 36); }
    assert U32At(p, h.optional + 60) == U32At(raw, h.optional + 60) by { Same32(raw, p, h, h.optional + 60); }
  }

  /** The patched image has the old headers with one section more. */
  lemma PatchedHeadersRead(raw: seq<Byte>, p: seq<Byte>, h: Headers)
    requires ReadHeaders(raw) == Ok(h) && HeadersAgree(raw, p, h) && Field16(p, h.coff + 2, h.sections + 1)
    ensures ReadHeaders(p) == Ok(h.(sections := h.sections + 1))
  {
    PatchedCoffFound(raw, p, h);
    PatchedFieldsRead(raw, p, h);
  }

  lemma PatchedCoffFound(raw: seq<Byte>, p: seq<Byte>, h: Headers)
    requires FindCoff(raw) == Ok(h.coff) && HeadersAgree(raw, p, h)
    ensures FindCoff(p) == Ok(h.coff)
  {
    assert p[0..2] == [p[0], p[1]] && raw[0..2] == [raw[0], raw[1]];
    var pe := h.coff - 4;
    assert Slice(p, pe, pe + 4) == p[pe..pe + 4] && Slice(raw, pe, pe + 4) == raw[pe..pe + 4];
  }

  lemma PatchedFieldsRead(raw: seq<Byte>, p: seq<Byte>, h: Headers)
    requires ReadFields(raw, h.coff) == Ok(h) && HeadersAgree(raw, p, h) && Field16(p, h.coff + 2, h.sections + 1)
    ensures ReadFields(p, h.coff) == Ok(h.(sections := h.sections + 1))
  {
  }

  /** An old section of the patched image does not hold the new section's address. */
  lemma OldSectionPassed(raw: seq<Byte>, p: seq<Byte>, h: Headers, s: Section, i: nat)
    requires RoomyHeaders(raw, h) && KeepsOldBytes(raw, p, h) && AboveSections(raw, h, s.rva) && i < h.sections
    ensures var off := h.sectionTable + 40 * i;
            off + 40 <= |p| && U32At(p, off + 12) + U32At(p, off + 8) <= s.rva
  {
    var off := h.sectionTable + 40 * i;
    assert off + 40 <= SlotOf(h);
    Same32(raw, p, h, off + 8);
    Same32(raw, p, h, off + 12);
    assert EndsBy(raw, h.sectionTable, i, s.rva);
  }

  /** Section header `i` of `p` ends before `rva`. */
  ghost predicate Below(p: seq<Byte>, table: nat, i: nat, rva: nat)
  {
    table + 40 * i + 40 <= |p| && U32At(p, table + 40 * i + 12) + U32At(p, table + 40 * i + 8) <= rva
  }

  /** Section header at `off` starts at `rva` and is not empty. */
  ghost predicate StartsAt(p: seq<Byte>, off: nat, rva: nat)
  {
    off + 40 <= |p| && U32At(p, off + 12) == rva && U32At(p, off + 8) > 0
  }

  lemma {:induction false} LastSectionFound(p: seq<Byte>, table: nat, count: nat, rva: nat, from: nat)
    requires from <= count && (forall i :: 0 <= i < count ==> Below(p, table, i, rva))
    requires StartsAt(p, table + 40 * count, rva)
    ensures FindSection(p, table, count + 1, rva, from) == Some(table + 40 * count)
    decreases count - from
  {
    if from < count {
      assert Below(p, table, from, rva);
      LastSectionFound(p, table, count, rva, from + 1);
    }
  }

  /** Only the new section holds the directory's address. */
  lemma NewSectionFound(raw: seq<Byte>, p: seq<Byte>, h: Headers, s: Section)
    requires RoomyHeaders(raw, h) && KeepsOldBytes(raw, p, h) && Points(p, h, s) && AboveSections(raw, h, s.rva)
    requires s.size > 0
    ensures FindSection(p, h.sectionTable, h.sections + 1, s.rva, 0) == Some(SlotOf(h))
  {
    forall i | 0 <= i < h.sections ensures Below(p, h.sectionTable, i, s.rva) {
      OldSectionPassed(raw, p, h, s, i);
    }
    assert StartsAt(p, SlotOf(h), s.rva);
    LastSectionFound(p, h.sectionTable, h.sections, s.rva, 0);
  }

  lemma KeptFromPrefix(raw: seq<Byte>, extended: seq<Byte>, h: Headers, p: seq<Byte>)
    requires raw <= extended && KeepsOldBytes(extended, p, h)
    ensures KeepsOldBytes(raw, p, h)
  {
    forall k | 0 <= k < |raw| && !MayChange(h, k) ensures p[k] == raw[k] { assert extended[k] == raw[k]; }
  }

  lemma SectionKept(raw: seq<Byte>, extended: seq<Byte>, h: Headers, p: seq<Byte>, at: nat, rsrc: seq<Byte>)
    requires RoomyHeaders(raw, h) && |raw| <= at && At(extended, at, rsrc) && KeepsOldBytes(extended, p, h)
    ensures At(p, at, rsrc)
  {
    forall k | at <= k < at + |rsrc| ensures p[k] == extended[k] { assert !MayChange(h, k); }
    assert p[at..at + |rsrc|] == extended[at..at + |rsrc|];
  }

  /** Following its headers, a reader of the patched image arrives at the bytes of the new section. */
  lemma PatchedReads(raw: seq<Byte>, h: Headers, s: Section, p: seq<Byte>, rsrc: seq<Byte>, tree: RS.Resource)
    requires ReadHeaders(raw) == Ok(h) && RoomyHeaders(raw, h) && AboveSections(raw, h, s.rva) && s.size == |rsrc|
    requires Points(p, h, s) && KeepsOldBytes(raw, p, h) && At(p, s.rawPtr, rsrc)
    requires ReadSection(rsrc, s.rva) == Some(tree)
    ensures ResourcesOf(p) == Some(tree)
  {
    assert |rsrc| > 0 by { RS.DirectoryNeedsHeader(rsrc, s.rva, 0, 3); }
    assert ReadHeaders(p) == Ok(h.(sections := h.sections + 1)) by { HeadersAfter(raw, h, p); }
    NewDirectoryBytes(raw, h, s, p, rsrc);
    ResourcesFollow(p, h.(sections := h.sections + 1), rsrc, s.rva, tree);
  }

  lemma ResourcesFollow(p: seq<Byte>, h: Headers, rsrc: seq<Byte>, rva: nat, tree: RS.Resource)
    requires ReadHeaders(p) == Ok(h) && DirectoryBytes(p, h) == Some((rsrc, rva))
    requires ReadSection(rsrc, rva) == Some(tree)
    ensures ResourcesOf(p) == Some(tree)
  {
  }

  lemma HeadersAfter(raw: seq<Byte>, h: Headers, p: seq<Byte>)
    requires ReadHeaders(raw) == Ok(h) && RoomyHeaders(raw, h) && KeepsOldBytes(raw, p, h)
    requires Field16(p, h.coff + 2, h.sections + 1)
    ensures ReadHeaders(p) == Ok(h.(sections := h.sections + 1))
  {
    KeptHeadersAgree(raw, p, h);
    PatchedHeadersRead(raw, p, h);
  }

  lemma NewDirectoryBytes(raw: seq<Byte>, h: Headers, s: Section, p: seq<Byte>, rsrc: seq<Byte>)
    requires RoomyHeaders(raw, h) && AboveSections(raw, h, s.rva) && s.size == |rsrc| > 0
    requires Points(p, h, s) && KeepsOldBytes(raw, p, h) && At(p, s.rawPtr, rsrc)
    ensures DirectoryBytes(p, h.(sections := h.sections + 1)) == Some((rsrc, s.rva))
  {
    NewSectionFound(raw, p, h, s);
    BytesAt(p, h.(sections := h.sections + 1), SlotOf(h), s, rsrc);
  }

  lemma BytesAt(p: seq<Byte>, h: Headers, off: nat, s: Section, rsrc: seq<Byte>)
    requires Field32(p, h.directory + 16, s.rva) && Field32(p, h.directory + 20, |rsrc|)
    requires FindSection(p, h.sectionTable, h.sections, s.rva, 0) == Some(off)
    requires Field32(p, off + 12, s.rva) && Field32(p, off + 20, s.rawPtr) && At(p, s.rawPtr, rsrc)
    ensures DirectoryBytes(p, h) == Some((rsrc, s.rva))
  {
    assert h.directory + 24 <= |p| && off + 24 <= |p|;
    assert U32At(p, off + 20) + (s.rva - U32At(p, off + 12)) == s.rawPtr;
    assert p[s.rawPtr..s.rawPtr + |rsrc|] == rsrc;
  }

  /** The new section header: its name, where the section is, no relocations or line numbers, readable data. */
  ghost predicate NewHeader(p: seq<Byte>, off: nat, s: Section)
  {
    At(p, off, [0x2E, 0x72, 0x73, 0x72, 0x63, 0, 0, 0]) && Field32(p, off + 8, s.size) &&
    Field32(p, off + 12, s.rva) && Field32(p, off + 16, s.rawSize) && Field32(p, off + 20, s.rawPtr) &&
    At(p, off + 24, [0, 0, 0, 0, 0, 0, 0, 0, 0, 0, 0, 0]) && Field32(p, off + 36, 0x4000_0040)
  }

  lemma SlotIsHeader(p: seq<Byte>, h: Headers, s: Section)
    requires SlotWritten(p, h, s)
    ensures NewHeader(p, SlotOf(h), s)
  {
    SlotReads(p, h, s);
    SlotEnds(p, h, s);
    SectionTailIs();
    AtParts(p, SlotOf(h) + 24, [0, 0, 0, 0, 0, 0, 0, 0, 0, 0, 0, 0], Le32(0x4000_0040));
    Le32At(p, SlotOf(h) + 36, 0x4000_0040);
  }

  lemma SectionTailIs()
    ensures SectionTail() == [0, 0, 0, 0, 0, 0, 0, 0, 0, 0, 0, 0] + Le32(0x4000_0040)
  {
  }

  lemma SlotEnds(p: seq<Byte>, h: Headers, s: Section)
    requires SlotWritten(p, h, s)
    ensures At(p, SlotOf(h), SectionName()) && At(p, SlotOf(h) + 24, SectionTail())
  {
    var off := SlotOf(h);
    var tail4 := Le32(s.rawPtr) + SectionTail();
    var tail3 := Le32(s.rawSize) + tail4;
    var tail2 := Le32(s.rva) + tail3;
    AtParts(p, off, SectionName(), Le32(s.size) + tail2);
    AtParts(p, off + 8, Le32(s.size), tail2);
    AtParts(p, off + 12, Le32(s.rva), tail3);
    AtParts(p, off + 16, Le32(s.rawSize), tail4);
    AtParts(p, off + 20, Le32(s.rawPtr), SectionTail());
  }

  /** The padding on both sides of the section. */
  ghost predicate Padded(p: seq<Byte>, old0: nat, s: Section, size: nat)
  {
    forall k :: old0 <= k < s.rawPtr || s.rawPtr + size <= k < |p| ==> k < |p| && p[k] == 0
  }

  /** Everything the splice promises about the image, given the section's bytes. */
  ghost predicate Spliced(raw: seq<Byte>, h: Headers, s: Section, image: nat, p: seq<Byte>, rsrc: seq<Byte>)
  {
    HeadersPatched(raw, p, h, s, image) && NewHeader(p, h.sectionTable + 40 * h.sections, s) &&
    KeepsOldBytes(raw, p, h) && |p| == s.rawPtr + s.rawSize &&
    At(p, s.rawPtr, rsrc) && Padded(p, |raw|, s, |rsrc|)
  }

  /** The numbers the splice has to write fit their fields. */
  predicate SpliceFits(raw: seq<Byte>, h: Headers, s: Section, image: nat)
  {
    Fits32(s) && h.sections + 1 < U16_LIMIT && h.optional + 12 <= |raw| &&
    U32At(raw, h.optional + 8) + s.rawSize < U32_LIMIT && image < U32_LIMIT
  }

  lemma SlotNeedsFit(raw: seq<Byte>, b: seq<Byte>, h: Headers, s: Section)
    requires RoomyHeaders(raw, h) && |raw| <= |b| && Fits32(s)
    ensures PatchSlot(b, h, s).Some? <==> h.sections + 1 < U16_LIMIT
    ensures PatchSlot(b, h, s).Some? ==> |PatchSlot(b, h, s).value| == |b|
  {
    assert |SliceAssign(b, SlotOf(h), SectionHeader(s.size, s.rva, s.rawSize, s.rawPtr))| == |b|;
  }

  lemma FieldsNeedFit(raw: seq<Byte>, b: seq<Byte>, h: Headers, s: Section, initialized: nat, image: nat)
    requires RoomyHeaders(raw, h) && |raw| <= |b| && Fits32(s)
    ensures PatchFields(b, h, s, initialized, image).Some? <==> initialized < U32_LIMIT && image < U32_LIMIT
  {
    if initialized < U32_LIMIT && image < U32_LIMIT { FieldPatchesApart(raw, |b|, h, s, initialized, image); }
  }

  lemma FieldsFollowSlot(b: seq<Byte>, h: Headers, s: Section, image: nat, b2: Option<seq<Byte>>, old0: nat)
    requires Fits32(s) && b2 == PatchSlot(b, h, s)
    requires b2.Some? ==> h.optional + 12 <= |b2.value| && U32At(b2.value, h.optional + 8) == old0
    ensures PatchHeaders(b, h, s, image) ==
            if b2 == None then None else PatchFields(b2.value, h, s, old0 + s.rawSize, image)
  {
  }

  lemma SlotKeepsOldSize(raw: seq<Byte>, b: seq<Byte>, h: Headers, s: Section)
    requires RoomyHeaders(raw, h) && raw <= b && Fits32(s) && h.sections + 1 < U16_LIMIT
    ensures PatchSlot(b, h, s).Some? && |PatchSlot(b, h, s).value| == |b|
    ensures U32At(PatchSlot(b, h, s).value, h.optional + 8) == U32At(raw, h.optional + 8)
  {
    SlotNeedsFit(raw, b, h, s);
    FirstPatches(raw, b, h, s, PatchSlot(b, h, s).value);
  }

  lemma SizesDecide(raw: seq<Byte>, b: seq<Byte>, h: Headers, s: Section, image: nat)
    requires RoomyHeaders(raw, h) && raw <= b && Fits32(s) && h.sections + 1 < U16_LIMIT
    ensures PatchHeaders(b, h, s, image).Some? <==>
            U32At(raw, h.optional + 8) + s.rawSize < U32_LIMIT && image < U32_LIMIT
  {
    SlotKeepsOldSize(raw, b, h, s);
    var b2, old0 := PatchSlot(b, h, s), U32At(raw, h.optional + 8);
    FieldsFollowSlot(b, h, s, image, b2, old0);
    FieldsNeedFit(raw, b2.value, h, s, old0 + s.rawSize, image);
  }

  lemma SlotDecides(raw: seq<Byte>, b: seq<Byte>, h: Headers, s: Section, image: nat)
    requires RoomyHeaders(raw, h) && |raw| <= |b| && Fits32(s) && h.sections + 1 >= U16_LIMIT
    ensures PatchHeaders(b, h, s, image) == None
  {
    SlotNeedsFit(raw, b, h, s);
  }

  lemma SizesAreDecisive(raw: seq<Byte>, h: Headers, s: Section, image: nat, ok: bool)
    requires h.optional + 12 <= |raw| && Fits32(s) && h.sections + 1 < U16_LIMIT
    requires ok <==> U32At(raw, h.optional + 8) + s.rawSize < U32_LIMIT && image < U32_LIMIT
    ensures ok <==> SpliceFits(raw, h, s, image)
  {
  }

  /** On roomy headers only a number that does not fit stops the patches. */
  lemma PatchesNeedFit(raw: seq<Byte>, b: seq<Byte>, h: Headers, s: Section, image: nat)
    requires RoomyHeaders(raw, h) && raw <= b
    ensures PatchHeaders(b, h, s, image).Some? <==> SpliceFits(raw, h, s, image)
  {
    if Fits32(s) {
      if h.sections + 1 < U16_LIMIT {
        SizesDecide(raw, b, h, s, image);
        SizesAreDecisive(raw, h, s, image, PatchHeaders(b, h, s, image).Some?);
      } else {
        SlotDecides(raw, b, h, s, image);
      }
    }
  }

  /** Where a section of this size goes. */
  function NewSection(raw: seq<Byte>, h: Headers, maxEnd: nat, size: nat): Section
    requires h.sectionAlignment > 0 && h.fileAlignment > 0
  {
    Section(size, Align(maxEnd, h.sectionAlignment), Align(size, h.fileAlignment), Align(|raw|, h.fileAlignment))
  }

  lemma NewSectionPlaced(raw: seq<Byte>, h: Headers, maxEnd: nat, size: nat)
    requires h.sectionAlignment > 0 && h.fileAlignment > 0 && AboveSections(raw, h, maxEnd)
    ensures SectionPlaced(raw, h, NewSection(raw, h, maxEnd, size))
  {
    var rva := Align(maxEnd, h.sectionAlignment);
    assert AboveSections(raw, h, rva) by {
      forall i | 0 <= i < h.sections ensures EndsBy(raw, h.sectionTable, i, rva) {
        assert EndsBy(raw, h.sectionTable, i, maxEnd);
      }
    }
  }

  /** Where the last section ends. */
  predicate IsMaxEnd(raw: seq<Byte>, h: Headers, maxEnd: nat)
  {
    TableInside(raw, h.sectionTable, h.sections) && maxEnd == MaxEnd(raw, h.sectionTable, h.sections)
  }

  lemma NewSectionAdjacent(raw: seq<Byte>, h: Headers, maxEnd: nat, size: nat)
    requires h.sectionAlignment > 0 && h.fileAlignment > 0 && IsMaxEnd(raw, h, maxEnd)
    ensures SectionAdjacent(raw, h, NewSection(raw, h, maxEnd, size))
  {
    var rva := Align(maxEnd, h.sectionAlignment);
    if rva >= h.sectionAlignment { MaxEndIsLeast(raw, h.sectionTable, h.sections, rva - h.sectionAlignment); }
  }

  function ImageSize(h: Headers, s: Section): nat
    requires h.sectionAlignment > 0
  {
    Align(s.rva + s.size, h.sectionAlignment)
  }

  /** The second half of `patch_pe`: extends the image by the section and patches its headers. */
  method SpliceSection(raw: seq<Byte>, h: Headers, maxEnd: nat, rsrc: seq<Byte>)
    returns (r: Result<seq<Byte>, PeError>, ghost s: Section, ghost image: nat)
    requires h.sectionAlignment > 0
    requires AboveSections(raw, h, maxEnd)
    ensures SpliceOutcome(raw, h, maxEnd, rsrc, r, s, image)
    ensures r.Ok? && RoomyHeaders(raw, h) ==> |r.value| == s.rawPtr + s.rawSize
  {
    var rva := Align(maxEnd, h.sectionAlignment);
    s, image := Section(|rsrc|, rva, 0, 0), 0;
    if h.fileAlignment == 0 { return Err(ZeroDivision), s, image; }
    var extended, rawPtr, rawSize := ExtendWithSection(raw, rsrc, h.fileAlignment);
    var section := Section(|rsrc|, rva, rawSize, rawPtr);
    var imageSize := Align(rva + |rsrc|, h.sectionAlignment);
    s, image := section, imageSize;
    NewSectionPlaced(raw, h, maxEnd, |rsrc|);
    if IsMaxEnd(raw, h, maxEnd) { NewSectionAdjacent(raw, h, maxEnd, |rsrc|); }
    if RoomyHeaders(raw, h) { PatchesNeedFit(raw, extended, h, section, imageSize); }
    var patched := PatchHeaders(extended, h, section, imageSize);
    if patched == None { return Err(StructError), s, image; }
    if RoomyHeaders(raw, h) {
      SpliceHolds(raw, extended, h, s, image, patched.value, rsrc);
    }
    return Ok(patched.value), s, image;
  }

  lemma SpliceHolds(raw: seq<Byte>, extended: seq<Byte>, h: Headers, s: Section, image: nat, p: seq<Byte>,
                    rsrc: seq<Byte>)
    requires RoomyHeaders(raw, h) && raw <= extended && PatchHeaders(extended, h, s, image) == Some(p)
    requires |extended| == s.rawPtr + s.rawSize && |raw| <= s.rawPtr && At(extended, s.rawPtr, rsrc)
    requires Padded(extended, |raw|, s, |rsrc|)
    ensures Spliced(raw, h, s, image, p, rsrc)
  {
    PatchesLand(raw, extended, h, s, image, p);
    HeaderIsNew(raw, h, s, image, p);
    KeptFromPrefix(raw, extended, h, p);
    SectionKept(raw, extended, h, p, s.rawPtr, rsrc);
    ZerosKept(raw, extended, h, s, p, rsrc);
  }

  lemma HeaderIsNew(raw: seq<Byte>, h: Headers, s: Section, image: nat, p: seq<Byte>)
    requires HeadersPatched(raw, p, h, s, image)
    ensures NewHeader(p, h.sectionTable + 40 * h.sections, s)
  {
    SlotIsHeader(p, h, s);
  }

  lemma ZerosKept(raw: seq<Byte>, extended: seq<Byte>, h: Headers, s: Section, p: seq<Byte>, rsrc: seq<Byte>)
    requires RoomyHeaders(raw, h) && KeepsOldBytes(extended, p, h) && |p| == |extended| == s.rawPtr + s.rawSize
    requires |raw| <= s.rawPtr && Padded(extended, |raw|, s, |rsrc|)
    ensures Padded(p, |raw|, s, |rsrc|)
  {
    forall k | |raw| <= k < s.rawPtr || s.rawPtr + |rsrc| <= k < |p| ensures k < |p| && p[k] == 0 {
      assert !MayChange(h, k) && extended[k] == 0;
    }
  }

  /** The resources were built from these inputs. */
  ghost predicate TableFrom(table: RS.ResourceTable, ico: seq<Byte>, brand: Option<seq<Byte>>,
                            versionInfo: Option<seq<Byte>>,
                            manifest: seq<Byte>)
  {
    |table| == 4 && |table[2].1| == 1 && versionInfo.Some? &&
    IconsAndGroups(table[0].1, table[1].1, ico, brand) &&
    table == ResourceTable(table[0].1, table[1].1, versionInfo.value, manifest)
  }

  /** The inputs of the resources: icon files, version block and manifest. */
  datatype Inputs = Inputs(ico: seq<Byte>, brand: Option<seq<Byte>>, version: VI.Version, role: string,
                           filename: seq<VI.Unit>)
  {
    predicate Valid() { VI.ValidVersion(version) }

    function VersionBytes(): Option<seq<Byte>>
    {
      if Valid() then VI.Emit(VI.VersionTree(version, filename, role)) else None
    }

    /** The icon files parse, and the version block fits its length fields. */
    predicate Buildable()
    {
      IconsParse(ico, brand) && VersionBytes().Some?
    }
  }

  /** A group names the images of its ICO file, and under the ids it names they are found. */
  ghost predicate EmbedsGroup(t: RS.Resource, id: nat, data: seq<Byte>, firstId: nat)
  {
    var group := RS.Lookup(t, [14, id, 0x0409]);
    group.Some? && Ico.GroupHeader(group.value, Ico.Count(data)) &&
    Ico.GroupLists(group.value, data, firstId, Ico.Count(data)) &&
    forall i {:trigger Ico.EntryInside(data, i)} :: 0 <= i < Ico.Count(data) ==>
      Ico.EntryInside(data, i) && RS.Lookup(t, [3, firstId + i, 0x0409]) == Some(Ico.Image(data, i))
  }

  /** No icon but those of the ICO files, and no second group without a second file. */
  ghost predicate EmbedsNoMore(t: RS.Resource, inputs: Inputs, count: nat)
  {
    (forall k: nat {:trigger RS.Lookup(t, [3, k, 0x0409])} ::
       RS.Lookup(t, [3, k, 0x0409]).Some? ==> 1 <= k <= count) &&
    (inputs.brand == None ==> RS.Lookup(t, [14, 2, 0x0409]) == None)
  }

  /** Both groups find their images, and there is nothing besides. */
  ghost predicate EmbedsIcons(t: RS.Resource, inputs: Inputs)
  {
    var icons, brandIcons := Ico.Count(inputs.ico), if inputs.brand.Some? then Ico.Count(inputs.brand.value) else 0;
    EmbedsGroup(t, 1, inputs.ico, 1) && EmbedsNoMore(t, inputs, icons + brandIcons) &&
    (inputs.brand.Some? ==> EmbedsGroup(t, 2, inputs.brand.value, icons + 1))
  }

  /** What a reader that looks resources up by type, id and language finds in a tree. */
  ghost predicate Embeds(t: RS.Resource, inputs: Inputs, manifest: seq<Byte>)
  {
    inputs.VersionBytes().Some? && RS.Lookup(t, [16, 1, 0x0409]) == inputs.VersionBytes() &&
    RS.Lookup(t, [24, 1, 0x0409]) == Some(manifest) && EmbedsIcons(t, inputs)
  }

  lemma {:induction false} FiledIcons(icons: seq<(nat, seq<Byte>)>, first: nat, k: nat)
    requires forall i :: 0 <= i < |icons| ==> icons[i].0 == first + i
    ensures RS.First(Filed(icons, k)) == if first <= k < first + |icons| then Some(icons[k - first].1) else None
  {
    if icons != [] { FiledIcons(icons[1..], first + 1, k); }
  }

  lemma FiledHead<T(!new)>(s: seq<(nat, T)>, head: (nat, T), key: nat)
    ensures RS.First(Filed([head] + s, key)) == if head.0 == key then Some(head.1) else RS.First(Filed(s, key))
  {
    assert ([head] + s)[1..] == s;
  }

  lemma FiledTypes(icons: seq<(nat, seq<Byte>)>, groups: seq<(nat, seq<Byte>)>, versionInfo: seq<Byte>,
                   manifest: seq<Byte>, key: nat)
    ensures RS.First(Filed(ResourceTable(icons, groups, versionInfo, manifest), key)) ==
            match key
            case 3 => Some(icons)
            case 14 => Some(groups)
            case 16 => Some([(1, versionInfo)])
            case 24 => Some([(1, manifest)])
            case _ => None
  {
    var last: RS.ResourceTable := [(RT_MANIFEST, [(1, manifest)])];
    var more: RS.ResourceTable := [(RT_VERSION, [(1, versionInfo)])] + last;
    FiledHead([], (RT_MANIFEST, [(1, manifest)]), key);
    assert [(RT_MANIFEST, [(1, manifest)])] + [] == last;
    FiledHead(last, (RT_VERSION, [(1, versionInfo)]), key);
    FiledHead(more, (RT_GROUP_ICON, groups), key);
    FiledHead([(RT_GROUP_ICON, groups)] + more, (RT_ICON, icons), key);
    assert ResourceTable(icons, groups, versionInfo, manifest) ==
           [(RT_ICON, icons)] + ([(RT_GROUP_ICON, groups)] + more);
  }

  lemma FourTypes(icons: seq<(nat, seq<Byte>)>, groups: seq<(nat, seq<Byte>)>, versionInfo: seq<Byte>,
                  manifest: seq<Byte>)
    ensures var table := ResourceTable(icons, groups, versionInfo, manifest);
            RS.First(Filed(table, 3)) == Some(icons) && RS.First(Filed(table, 14)) == Some(groups) &&
            RS.First(Filed(table, 16)) == Some([(1, versionInfo)]) &&
            RS.First(Filed(table, 24)) == Some([(1, manifest)])
  {
    FiledTypes(icons, groups, versionInfo, manifest, 3);
    FiledTypes(icons, groups, versionInfo, manifest, 14);
    FiledTypes(icons, groups, versionInfo, manifest, 16);
    FiledTypes(icons, groups, versionInfo, manifest, 24);
  }

  /** The tree of the table serves every lookup as it should. */
  lemma TableEmbeds(table: RS.ResourceTable, inputs: Inputs, manifest: seq<Byte>)
    requires TableFrom(table, inputs.ico, inputs.brand, inputs.VersionBytes(), manifest)
    ensures Embeds(RS.TreeOf(table), inputs, manifest)
  {
    var icons, groups, version := table[0].1, table[1].1, inputs.VersionBytes().value;
    FourTypes(icons, groups, version, manifest);
    FiledEmbeds(table, icons, groups, version, inputs, manifest);
  }

  lemma FiledEmbeds(table: RS.ResourceTable, icons: seq<(nat, seq<Byte>)>, groups: seq<(nat, seq<Byte>)>,
                    version: seq<Byte>, inputs: Inputs, manifest: seq<Byte>)
    requires RS.First(Filed(table, 3)) == Some(icons) && RS.First(Filed(table, 14)) == Some(groups)
    requires RS.First(Filed(table, 16)) == Some([(1, version)]) && RS.First(Filed(table, 24)) == Some([(1, manifest)])
    requires inputs.VersionBytes() == Some(version) && IconsAndGroups(icons, groups, inputs.ico, inputs.brand)
    ensures Embeds(RS.TreeOf(table), inputs, manifest)
  {
    SingleLookup(table, 16, version);
    SingleLookup(table, 24, manifest);
    IconsEmbed(table, icons, groups, inputs);
  }

  lemma SingleLookup(table: RS.ResourceTable, resourceType: nat, payload: seq<Byte>)
    requires RS.First(Filed(table, resourceType)) == Some([(1, payload)])
    ensures RS.Lookup(RS.TreeOf(table), [resourceType, 1, 0x0409]) == Some(payload)
  {
    NumberedLookup(table, resourceType, [(1, payload)], 1);
  }

  lemma IconsEmbed(table: RS.ResourceTable, icons: seq<(nat, seq<Byte>)>, groups: seq<(nat, seq<Byte>)>, inputs: Inputs)
    requires RS.First(Filed(table, 3)) == Some(icons) && RS.First(Filed(table, 14)) == Some(groups)
    requires IconsAndGroups(icons, groups, inputs.ico, inputs.brand)
    ensures EmbedsIcons(RS.TreeOf(table), inputs)
  {
    TableEmbedsGroup(table, icons, groups, 1, inputs.ico, 1);
    if inputs.brand.Some? { TableEmbedsGroup(table, icons, groups, 2, inputs.brand.value, Ico.Count(inputs.ico) + 1); }
    TableEmbedsNoMore(table, icons, groups, inputs);
  }

  /** Under a type whose ids run from 1, an id leads to the payload filed there. */
  lemma NumberedLookup(table: RS.ResourceTable, resourceType: nat, items: seq<(nat, seq<Byte>)>, k: nat)
    requires RS.First(Filed(table, resourceType)) == Some(items) && NumberedFromOne(items)
    ensures RS.Lookup(RS.TreeOf(table), [resourceType, k, 0x0409]) ==
            if 1 <= k <= |items| then Some(items[k - 1].1) else None
  {
    RS.TableLookup(table, resourceType, k, 0x0409);
    FiledIcons(items, 1, k);
  }

  lemma TableEmbedsGroup(table: RS.ResourceTable, icons: seq<(nat, seq<Byte>)>, groups: seq<(nat, seq<Byte>)>, id: nat,
                         data: seq<Byte>, firstId: nat)
    requires RS.First(Filed(table, 3)) == Some(icons) && RS.First(Filed(table, 14)) == Some(groups)
    requires NumberedFromOne(icons) && NumberedFromOne(groups) && 1 <= id <= |groups|
    requires GroupResolves(groups[id - 1].1, icons, data, firstId)
    ensures EmbedsGroup(RS.TreeOf(table), id, data, firstId)
  {
    NumberedLookup(table, 14, groups, id);
    forall i | 0 <= i < Ico.Count(data)
      ensures Ico.EntryInside(data, i)
      ensures RS.Lookup(RS.TreeOf(table), [3, firstId + i, 0x0409]) == Some(Ico.Image(data, i))
    {
      NumberedLookup(table, 3, icons, firstId + i);
    }
  }

  lemma TableEmbedsNoMore(table: RS.ResourceTable, icons: seq<(nat, seq<Byte>)>, groups: seq<(nat, seq<Byte>)>,
                          inputs: Inputs)
    requires RS.First(Filed(table, 3)) == Some(icons) && RS.First(Filed(table, 14)) == Some(groups)
    requires NumberedFromOne(icons) && NumberedFromOne(groups) && (inputs.brand == None ==> |groups| == 1)
    ensures EmbedsNoMore(RS.TreeOf(table), inputs, |icons|)
  {
    forall k: nat | RS.Lookup(RS.TreeOf(table), [3, k, 0x0409]).Some? ensures 1 <= k <= |icons| {
      NumberedLookup(table, 3, icons, k);
    }
    NumberedLookup(table, 14, groups, 2);
  }

  /** The first half of `patch_pe`: the resources and their section bytes. */
  method BuildResources(inputs: Inputs, manifest: seq<Byte>, rva: nat)
    returns (r: Result<seq<Byte>, PeError>, ghost table: RS.ResourceTable)
    requires inputs.Valid()
    ensures Built(inputs, manifest, rva, r, table)
  {
    table := [];
    var collected := CollectIcons(inputs.ico, inputs.brand);
    if collected.Err? { return Err(collected.error), table; }
    var (icons, groups) := collected.value;
    var versionInfo := VI.MakeVersionInfo(inputs.version, inputs.filename, inputs.role);
    if versionInfo.Err? { return Err(StructError), table; }
    var resources := ResourceTable(icons, groups, versionInfo.value, manifest);
    table := resources;
    ResourceTableAddressable(icons, groups, versionInfo.value, manifest);
    var rsrc := RS.BuildResourceSection(resources, rva);
    if rsrc.Err? { return Err(StructError), table; }
    TableEmbeds(table, inputs, manifest);
    return Ok(rsrc.value), table;
  }

  /** The headers are roomy and state their alignments. */
  predicate Sound(raw: seq<Byte>, h: Headers)
  {
    RoomyHeaders(raw, h) && h.sectionAlignment > 0 && h.fileAlignment > 0
  }

  /**
   * Of headers that were read, these are sound: behind the DOS stub, with all directories up to the resource directory
   * in the optional header, room for one section header more, and alignments that are not zero.
   */
  lemma SoundMeans(raw: seq<Byte>, h: Headers)
    requires ReadHeaders(raw) == Ok(h)
    ensures RoomyHeaders(raw, h) <==>
            0x44 <= h.coff && h.directory + 24 <= h.sectionTable &&
            h.sectionTable + 40 * (h.sections + 1) <= h.sizeOfHeaders <= |raw|
    ensures Sound(raw, h) <==> RoomyHeaders(raw, h) && h.sectionAlignment > 0 && h.fileAlignment > 0
  {
    HeadersMean(raw, h);
  }

  /**
   * What a patched image satisfies: where the section lies, what it holds, and on roomy headers all bytes of the file.
   */
  ghost predicate Patched(raw: seq<Byte>, h: Headers, inputs: Inputs, manifest: seq<Byte>, p: seq<Byte>,
                          s: Section, image: nat, table: RS.ResourceTable, rsrc: seq<Byte>)
  {
    SlotOf(h) + 40 <= h.sizeOfHeaders && SectionPlaced(raw, h, s) && SectionAdjacent(raw, h, s) &&
    ImageCovers(h, s, image) && inputs.Buildable() &&
    TableFrom(table, inputs.ico, inputs.brand, inputs.VersionBytes(), manifest) &&
    s.size == |rsrc| && ReadSection(rsrc, s.rva) == Some(RS.TreeOf(table)) &&
    Embeds(RS.TreeOf(table), inputs, manifest) &&
    (RoomyHeaders(raw, h) ==> Spliced(raw, h, s, image, p, rsrc))
  }

  /** The section the resources get, and whether it and all numbers fit their fields. */
  ghost predicate Patchable(raw: seq<Byte>, h: Headers, table: RS.ResourceTable)
  {
    TableInside(raw, h.sectionTable, h.sections) && h.sectionAlignment > 0 && h.fileAlignment > 0 &&
    var s := NewSection(raw, h, MaxEnd(raw, h.sectionTable, h.sections), RS.SectionSize(table));
    RS.WithinFields(table, s.rva) && SpliceFits(raw, h, s, ImageSize(h, s))
  }

  /** On a sound image with buildable resources, patching succeeds exactly when the resources and all numbers fit. */
  ghost predicate SucceedsExactly(raw: seq<Byte>, h: Headers, inputs: Inputs, manifest: seq<Byte>,
                                  table: RS.ResourceTable, ok: bool)
  {
    Sound(raw, h) && inputs.Buildable() ==>
      TableFrom(table, inputs.ico, inputs.brand, inputs.VersionBytes(), manifest) && (ok <==> Patchable(raw, h, table))
  }

  /** What patching promises once the headers are read. */
  ghost predicate PatchOutcome(raw: seq<Byte>, h: Headers, inputs: Inputs, manifest: seq<Byte>, r: Result<seq<Byte>,
                               PeError>,
                               s: Section, image: nat, table: RS.ResourceTable, rsrc: seq<Byte>)
  {
    SucceedsExactly(raw, h, inputs, manifest, table, r.Ok?) &&
    (r.Ok? ==> Patched(raw, h, inputs, manifest, r.value, s, image, table, rsrc))
  }

  /** The resources were built exactly when that was possible. */
  ghost predicate Built(inputs: Inputs, manifest: seq<Byte>, rva: nat, r: Result<seq<Byte>, PeError>,
                        table: RS.ResourceTable)
  {
    (r.Ok? <==> inputs.Buildable() && RS.WithinFields(table, rva)) &&
    (inputs.Buildable() ==> TableFrom(table, inputs.ico, inputs.brand, inputs.VersionBytes(), manifest)) &&
    (r.Ok? ==> |r.value| == RS.SectionSize(table) && ReadSection(r.value, rva) == Some(RS.TreeOf(table)) &&
               Embeds(RS.TreeOf(table), inputs, manifest))
  }

  /** The section was spliced in exactly when its numbers fit. */
  ghost predicate SpliceOutcome(raw: seq<Byte>, h: Headers, maxEnd: nat, rsrc: seq<Byte>, r: Result<seq<Byte>, PeError>,
                                s: Section, image: nat)
    requires h.sectionAlignment > 0
  {
    (h.fileAlignment > 0 ==> s == NewSection(raw, h, maxEnd, |rsrc|) && image == ImageSize(h, s)) &&
    (r.Ok? ==> h.fileAlignment > 0 && SectionPlaced(raw, h, s) && ImageCovers(h, s, image)) &&
    (r.Ok? && IsMaxEnd(raw, h, maxEnd) ==> SectionAdjacent(raw, h, s)) &&
    (r.Ok? && RoomyHeaders(raw, h) ==> Spliced(raw, h, s, image, r.value, rsrc)) &&
    (Sound(raw, h) ==> (r.Ok? <==> SpliceFits(raw, h, s, image)))
  }

  /** There is room for one more header, and this is where the last section ends. */
  predicate Room(raw: seq<Byte>, h: Headers, maxEnd: nat)
  {
    SlotOf(h) + 40 <= h.sizeOfHeaders && TableInside(raw, h.sectionTable, h.sections) && h.sectionAlignment > 0 &&
    maxEnd == MaxEnd(raw, h.sectionTable, h.sections)
  }

  /** Patchable, in terms of the parts the steps establish. */
  lemma PatchableParts(raw: seq<Byte>, h: Headers, maxEnd: nat, table: RS.ResourceTable)
    requires Room(raw, h, maxEnd) && h.fileAlignment > 0
    ensures var s := NewSection(raw, h, maxEnd, RS.SectionSize(table));
            Patchable(raw, h, table) <==>
            RS.WithinFields(table, Align(maxEnd, h.sectionAlignment)) && SpliceFits(raw, h, s, ImageSize(h, s))
  {
  }

  lemma NoRoom(raw: seq<Byte>, h: Headers, inputs: Inputs, manifest: seq<Byte>, r: Result<seq<Byte>, PeError>,
               s: Section, image: nat, table: RS.ResourceTable, rsrc: seq<Byte>)
    requires r.Err? && !Sound(raw, h)
    ensures PatchOutcome(raw, h, inputs, manifest, r, s, image, table, rsrc)
  {
  }

  lemma NotBuilt(raw: seq<Byte>, h: Headers, inputs: Inputs, manifest: seq<Byte>, maxEnd: nat, r: Result<seq<Byte>,
                 PeError>,
                 s: Section, image: nat, table: RS.ResourceTable, rsrc: seq<Byte>)
    requires Room(raw, h, maxEnd) && Built(inputs, manifest, Align(maxEnd, h.sectionAlignment), r, table) && r.Err?
    ensures PatchOutcome(raw, h, inputs, manifest, r, s, image, table, rsrc)
  {
    if Sound(raw, h) { PatchableParts(raw, h, maxEnd, table); }
  }

  lemma SplicedIsPatched(raw: seq<Byte>, h: Headers, inputs: Inputs, manifest: seq<Byte>, maxEnd: nat, rsrc: seq<Byte>,
                         table: RS.ResourceTable, p: seq<Byte>, s: Section, image: nat)
    requires Room(raw, h, maxEnd) && Built(inputs, manifest, Align(maxEnd, h.sectionAlignment), Ok(rsrc), table)
    requires SpliceOutcome(raw, h, maxEnd, rsrc, Ok(p), s, image)
    ensures Patched(raw, h, inputs, manifest, p, s, image, table, rsrc)
  {
    assert h.fileAlignment > 0;
    assert s.rva == Align(maxEnd, h.sectionAlignment) && s.size == |rsrc|;
  }

  lemma BuiltAndSpliced(raw: seq<Byte>, h: Headers, inputs: Inputs, manifest: seq<Byte>, maxEnd: nat, rsrc: seq<Byte>,
                        table: RS.ResourceTable, r: Result<seq<Byte>, PeError>, s: Section, image: nat)
    requires Room(raw, h, maxEnd) && Built(inputs, manifest, Align(maxEnd, h.sectionAlignment), Ok(rsrc), table)
    requires SpliceOutcome(raw, h, maxEnd, rsrc, r, s, image)
    ensures PatchOutcome(raw, h, inputs, manifest, r, s, image, table, rsrc)
  {
    if Sound(raw, h) { PatchableParts(raw, h, maxEnd, table); }
    if r.Ok? { SplicedIsPatched(raw, h, inputs, manifest, maxEnd, rsrc, table, r.value, s, image); }
  }

  /** The checks before anything is built, and the end of the last section. */
  method FindRoom(raw: seq<Byte>, h: Headers) returns (maxEnd: Result<nat, PeError>)
    ensures maxEnd.Ok? ==> Room(raw, h, maxEnd.value) && AboveSections(raw, h, maxEnd.value)
    ensures maxEnd.Err? ==> !Sound(raw, h)
  {
    if SlotOf(h) + 40 > h.sizeOfHeaders { return Err(NoRoomForHeader); }
    maxEnd := LastSectionEnd(raw, h.sectionTable, h.sections);
    if maxEnd.Ok? && h.sectionAlignment == 0 { return Err(ZeroDivision); }
  }

  /** A reader of the embedded version resource learns what went in. */
  lemma EmbeddedVersionSays(absolute: bool, t: RS.Resource, inputs: Inputs, manifest: seq<Byte>)
    requires Embeds(t, inputs, manifest)
    ensures var found := RS.Lookup(t, [16, 1, 0x0409]);
            found.Some? &&
            var block := VI.ReadBlock(absolute, found.value, 0, |found.value|);
            block.Some? && VI.VersionSays(block.value, inputs.version, inputs.filename, inputs.role)
  {
    var bytes := inputs.VersionBytes().value;
    assert bytes[0..|bytes|] == bytes;
    VI.VersionInfoReadsBack(absolute, inputs.version, inputs.filename, inputs.role, bytes, 0, |bytes|);
  }

  /** The steps of `patch_pe` once there is room. */
  method BuildAndSplice(raw: seq<Byte>, h: Headers, inputs: Inputs, manifest: seq<Byte>, maxEnd: nat)
    returns (r: Result<seq<Byte>, PeError>, ghost s: Section, ghost image: nat, ghost table: RS.ResourceTable,
             ghost rsrc: seq<Byte>)
    requires inputs.Valid() && Room(raw, h, maxEnd) && AboveSections(raw, h, maxEnd)
    ensures PatchOutcome(raw, h, inputs, manifest, r, s, image, table, rsrc)
  {
    s, image, rsrc := Section(0, 0, 0, 0), 0, [];
    r, table := BuildResources(inputs, manifest, Align(maxEnd, h.sectionAlignment));
    if r.Err? {
      NotBuilt(raw, h, inputs, manifest, maxEnd, r, s, image, table, rsrc);
      return;
    }
    var bytes := r.value;
    rsrc := bytes;
    r, s, image := SpliceSection(raw, h, maxEnd, bytes);
    BuiltAndSpliced(raw, h, inputs, manifest, maxEnd, rsrc, table, r, s, image);
  }

  /** The steps of `patch_pe` after reading the headers. */
  method PatchWith(raw: seq<Byte>, h: Headers, inputs: Inputs, manifest: seq<Byte>)
    returns (r: Result<seq<Byte>, PeError>, ghost s: Section, ghost image: nat, ghost table: RS.ResourceTable,
             ghost rsrc: seq<Byte>)
    requires inputs.Valid()
    ensures PatchOutcome(raw, h, inputs, manifest, r, s, image, table, rsrc)
  {
    var maxEnd := FindRoom(raw, h);
    if maxEnd.Ok? {
      r, s, image, table, rsrc := BuildAndSplice(raw, h, inputs, manifest, maxEnd.value);
    } else {
      r, s, image, table, rsrc := Err(maxEnd.error), Section(0, 0, 0, 0), 0, [], [];
      NoRoom(raw, h, inputs, manifest, r, s, image, table, rsrc);
    }
  }

  /** A reader of the patched image finds the resources. */
  lemma PatchedResources(raw: seq<Byte>, h: Headers, inputs: Inputs, manifest: seq<Byte>, p: seq<Byte>,
                         s: Section, image: nat, table: RS.ResourceTable, rsrc: seq<Byte>)
    requires ReadHeaders(raw) == Ok(h) && RoomyHeaders(raw, h)
    requires Patched(raw, h, inputs, manifest, p, s, image, table, rsrc)
    ensures ResourcesOf(p) == Some(RS.TreeOf(table))
  {
    PatchedPoints(raw, p, h, s, image);
    PatchedReads(raw, h, s, p, rsrc, RS.TreeOf(table));
  }

  /**
   * What patching promises of a file: an error without headers, else the outcome, and that a reader finds the
   * resources.
   */
  ghost predicate FileOutcome(raw: seq<Byte>, headers: Result<Headers, PeError>, inputs: Inputs, manifests: Manifests,
                              r: Result<seq<Byte>, PeError>, s: Section, image: nat, table: RS.ResourceTable,
                              rsrc: seq<Byte>)
  {
    match headers
    case Err(_) => r.Err?
    case Ok(h) =>
      PatchOutcome(raw, h, inputs, manifests.For(h.architecture), r, s, image, table, rsrc) &&
      (r.Ok? && RoomyHeaders(raw, h) ==>
         ResourcesOf(r.value) == Some(RS.TreeOf(table)) && h.coff + 2 <= |raw| &&
         Embeds(RS.TreeOf(table), inputs, ManifestFor(U16At(raw, h.coff), manifests)))
  }

  /** The manifest for a machine. */
  function ManifestFor(machine: nat, manifests: Manifests): seq<Byte>
  {
    if machine == 0x8664 then manifests.amd64 else if machine == 0xAA64 then manifests.arm64 else manifests.x86
  }

  lemma ManifestIsFor(raw: seq<Byte>, h: Headers, manifests: Manifests)
    requires ReadHeaders(raw) == Ok(h)
    ensures h.coff + 2 <= |raw| && manifests.For(h.architecture) == ManifestFor(U16At(raw, h.coff), manifests)
  {
    HeadersMean(raw, h);
  }

  lemma OutcomeHolds(raw: seq<Byte>, h: Headers, inputs: Inputs, manifests: Manifests, r: Result<seq<Byte>, PeError>,
                     s: Section, image: nat, table: RS.ResourceTable, rsrc: seq<Byte>)
    requires ReadHeaders(raw) == Ok(h)
    requires PatchOutcome(raw, h, inputs, manifests.For(h.architecture), r, s, image, table, rsrc)
    ensures FileOutcome(raw, ReadHeaders(raw), inputs, manifests, r, s, image, table, rsrc)
  {
    if r.Ok? && RoomyHeaders(raw, h) {
      PatchedResources(raw, h, inputs, manifests.For(h.architecture), r.value, s, image, table, rsrc);
      ManifestIsFor(raw, h, manifests);
    }
  }

  /**
   * On success the new section is aligned, above every old section and behind every old byte; on a roomy
   * header nothing else moved, and a reader of the result finds exactly the resources that went in.
   */
  method PatchPe(raw: seq<Byte>, inputs: Inputs, manifests: Manifests)
    returns (r: Result<seq<Byte>, PeError>, ghost s: Section, ghost image: nat, ghost table: RS.ResourceTable,
             ghost rsrc: seq<Byte>)
    requires inputs.Valid()
    ensures FileOutcome(raw, ReadHeaders(raw), inputs, manifests, r, s, image, table, rsrc)
  {
    s, image, table, rsrc := Section(0, 0, 0, 0), 0, [], [];
    var headers := ReadHeaders(raw);
    if headers.Err? { return Err(headers.error), s, image, table, rsrc; }
    var h := headers.value;
    r, s, image, table, rsrc := PatchWith(raw, h, inputs, manifests.For(h.architecture));
    OutcomeHolds(raw, h, inputs, manifests, r, s, image, table, rsrc);
  }
}
