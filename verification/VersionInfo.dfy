/**
 * The VERSIONINFO blocks of scripts/pe_resources.py: length-prefixed, nested, padded to 4 bytes, with a
 * reader that recovers keys, values and child order. Text is a sequence of UTF-16 code units.
 */
module VersionInfo {
  import opened Wrappers
  import opened Bytes

  type Unit = u: int | 0 <= u < U16_LIMIT

  function Pad4(data: seq<Byte>): (r: seq<Byte>)
    ensures data <= r
  {
    data + Zeros(PadCount(|data|))
  }

  lemma PadAligns(data: seq<Byte>)
    ensures Aligned(|Pad4(data)|)
  {
    PadReaches(|data|);
  }

  lemma {:induction false} JoinedAligned(children: seq<seq<Byte>>)
    ensures Aligned(|Joined(children)|)
  {
    if children != [] {
      JoinedAligned(children[..|children| - 1]);
      PadAligns(children[|children| - 1]);
      PadShift(|Joined(children[..|children| - 1])|, |Pad4(children[|children| - 1])|);
    }
  }

  function Utf16(units: seq<Unit>): (b: seq<Byte>)
    ensures |b| == 2 * |units|
  {
    if units == [] then [] else Le16(units[0]) + Utf16(units[1..])
  }

  function Wstr(text: seq<Unit>): (b: seq<Byte>)
    ensures |b| == 2 * |text| + 2
  {
    Utf16(text + [0])
  }

  /** The three 16-bit header fields: length, value length, value type. */
  function Header(length: nat, valueLength: nat, valueType: nat): (b: seq<Byte>)
    requires length < U16_LIMIT && valueLength < U16_LIMIT && valueType < U16_LIMIT
    ensures |b| == 6
  {
    Le16(length) + Le16(valueLength) + Le16(valueType)
  }

  // ----- What a block means, and its reader -----

  datatype Block = Block(key: seq<Unit>, valueType: nat, value: seq<Byte>, children: seq<Block>)

  /** Where padding after `x` ends: on absolute 4-byte positions, or relative to the block at `start`. */
  function PadEnd(absolute: bool, start: nat, x: nat): (r: nat)
    requires start <= x
    ensures x <= r < x + 4
  {
    if absolute then x + PadCount(x) else x + PadCount(x - start)
  }

  /** The code units at `p` up to a NUL, before `end`. */
  function ReadKey(b: seq<Byte>, p: nat, end: nat): (k: Option<seq<Unit>>)
    requires end <= |b|
    ensures k.Some? ==> p + 2 * |k.value| + 2 <= end
    decreases end - p
  {
    if p + 2 > end then None
    else if U16At(b, p) == 0 then Some([])
    else
      var rest := ReadKey(b, p + 2, end);
      if rest == None then None else Some([U16At(b, p)] + rest.value)
  }

  function ReadBlock(absolute: bool, b: seq<Byte>, p: nat, end: nat): Option<Block>
    requires p <= end <= |b|
    decreases end - p, 0
  {
    if p + 6 > end then None else
    var length, valueLength, valueType := U16At(b, p), U16At(b, p + 2), U16At(b, p + 4);
    if length < 6 || p + length > end then None else
    var stop := p + length;
    var key := ReadKey(b, p + 6, stop);
    if key == None then None else
    var v := PadEnd(absolute, p, p + 6 + 2 * |key.value| + 2);
    var size := if valueType == 1 then 2 * valueLength else valueLength;
    if v + size > stop then None else
    var c := if size == 0 then v else PadEnd(absolute, p, v + size);
    if c >= stop then Some(Block(key.value, valueType, b[v..v + size], [])) else
    var children := ReadChildren(absolute, b, p, c, stop);
    if children == None then None else Some(Block(key.value, valueType, b[v..v + size], children.value))
  }

  /** The blocks from `c` on, inside the block at `start`. */
  function ReadChildren(absolute: bool, b: seq<Byte>, start: nat, c: nat, end: nat): Option<seq<Block>>
    requires start <= c && end <= |b|
    decreases end - c, 1
  {
    if c >= end then Some([]) else
    var first := ReadBlock(absolute, b, c, end);
    if first == None then None else
    var rest := ReadChildren(absolute, b, start, PadEnd(absolute, start, c + U16At(b, c)), end);
    if rest == None then None else Some([first.value] + rest.value)
  }

  // ----- The writers -----

  function KeyPart(key: seq<Unit>): (b: seq<Byte>)
    ensures |b| >= 8
  {
    Pad4(Zeros(6) + Wstr(key))
  }

  function Joined(children: seq<seq<Byte>>): seq<Byte>
  {
    if children == [] then [] else Joined(children[..|children| - 1]) + Pad4(children[|children| - 1])
  }

  function StringBody(key: seq<Unit>, value: seq<Unit>): seq<Byte>
  {
    KeyPart(key) + Wstr(value)
  }

  function ContainerBody(key: seq<Unit>, children: seq<seq<Byte>>, value: seq<Byte>): seq<Byte>
  {
    KeyPart(key) + Pad4(value) + Joined(children)
  }

  /** `body` with its first six bytes replaced by the header. */
  function Stamped(body: seq<Byte>, valueLength: nat, valueType: nat): (b: seq<Byte>)
    requires 6 <= |body| < U16_LIMIT && valueLength < U16_LIMIT && valueType < U16_LIMIT
    ensures |b| == |body|
  {
    Header(|body|, valueLength, valueType) + body[6..]
  }

  method MakeStringBlock(key: seq<Unit>, value: seq<Unit>) returns (r: Result<seq<Byte>, PackError>)
    ensures r.Ok? <==> |StringBody(key, value)| < U16_LIMIT
    ensures r.Ok? ==> r.value == Stamped(StringBody(key, value), |value| + 1, 1)
  {
    var out := Zeros(6);
    out := out + Wstr(key);
    out := Pad4(out);
    var valueBytes := Wstr(value);
    out := out + valueBytes;
    if |out| >= U16_LIMIT { return Err(FieldOverflow); }
    out := Header(|out|, |valueBytes| / 2, 1) + out[6..];
    return Ok(out);
  }

  method MakeContainerBlock(key: seq<Unit>, children: seq<seq<Byte>>, value: seq<Byte>, valueLength: nat,
                            valueType: nat)
    returns (r: Result<seq<Byte>, PackError>)
    ensures r.Ok? <==>
            |ContainerBody(key, children, value)| < U16_LIMIT && valueLength < U16_LIMIT && valueType < U16_LIMIT
    ensures r.Ok? ==> r.value == Stamped(ContainerBody(key, children, value), valueLength, valueType)
  {
    var out := Zeros(6);
    out := out + Wstr(key);
    out := Pad4(out);
    ghost var head := KeyPart(key) + Pad4(value);
    HeadAligned(key, value);
    if value != [] {
      PadConcat(out, value);
      out := out + value;
      out := Pad4(out);
    }
    assert out == head;
    for i := 0 to |children|
      invariant out == head + Joined(children[..i])
    {
      JoinedNext(head, children, i);
      out := out + children[i];
      out := Pad4(out);
    }
    assert children[..|children|] == children;
    if |out| >= U16_LIMIT || valueLength >= U16_LIMIT || valueType >= U16_LIMIT { return Err(FieldOverflow); }
    out := Header(|out|, valueLength, valueType) + out[6..];
    return Ok(out);
  }

  lemma HeadAligned(key: seq<Unit>, value: seq<Byte>)
    ensures Aligned(|KeyPart(key)|) && Aligned(|KeyPart(key) + Pad4(value)|)
  {
    PadAligns(Zeros(6) + Wstr(key));
    PadAligns(value);
    PadShift(|KeyPart(key)|, |Pad4(value)|);
  }

  /** Padding what follows an aligned prefix is padding the whole. */
  lemma PadConcat(a: seq<Byte>, b: seq<Byte>)
    requires Aligned(|a|)
    ensures Pad4(a + b) == a + Pad4(b)
  {
    PadShift(|a|, |b|);
  }

  lemma JoinedNext(head: seq<Byte>, children: seq<seq<Byte>>, i: nat)
    requires i < |children| && Aligned(|head|)
    ensures Pad4(head + Joined(children[..i]) + children[i]) == head + Joined(children[..i + 1])
  {
    var done := Joined(children[..i]);
    assert children[..i + 1][..i] == children[..i];
    JoinedAligned(children[..i]);
    PadShift(|head|, |done|);
    PadConcat(head + done, children[i]);
    assert Joined(children[..i + 1]) == done + Pad4(children[i]);
    ConcatAssociates(head, done, Pad4(children[i]));
  }

  // ----- What is written, as a tree -----

  /** A block to write: text under a key, or a container with an optional binary value and children. */
  datatype Source =
    | Text(key: seq<Unit>, text: seq<Unit>)
    | Group(key: seq<Unit>, valueType: nat, value: seq<Byte>, children: seq<Source>)

  /** The value length field: characters for text values, bytes otherwise. */
  function LengthField(valueType: nat, value: seq<Byte>): nat
  {
    if valueType == 1 then |value| / 2 else |value|
  }

  /** The bytes the writers give a block, or nothing if some field overflows. */
  function Emit(s: Source): (r: Option<seq<Byte>>)
    ensures r.Some? ==> 6 <= |r.value| < U16_LIMIT
    decreases s
  {
    match s
    case Text(key, text) =>
      if |StringBody(key, text)| < U16_LIMIT then Some(Stamped(StringBody(key, text), |text| + 1, 1)) else None
    case Group(key, valueType, value, children) =>
      var parts := EmitAll(children);
      if parts == None then None else
      var body := ContainerBody(key, parts.value, value);
      var length := LengthField(valueType, value);
      if |body| < U16_LIMIT && length < U16_LIMIT && valueType < U16_LIMIT then Some(Stamped(body, length, valueType))
      else None
  }

  function EmitAll(children: seq<Source>): (r: Option<seq<seq<Byte>>>)
    ensures r.Some? ==> |r.value| == |children|
    decreases children
  {
    if children == [] then Some([]) else
    var first, rest := Emit(children[0]), EmitAll(children[1..]);
    if first == None || rest == None then None else Some([first.value] + rest.value)
  }

  function Meaning(s: Source): Block
    decreases s
  {
    match s
    case Text(key, text) => Block(key, 1, Wstr(text), [])
    case Group(key, valueType, value, children) => Block(key, valueType, value, MeaningAll(children))
  }

  function MeaningAll(children: seq<Source>): (r: seq<Block>)
    ensures |r| == |children|
    decreases children
  {
    if children == [] then [] else [Meaning(children[0])] + MeaningAll(children[1..])
  }

  /** Keys are NUL-free and text values have whole characters. */
  predicate Readable(s: Source)
    decreases s
  {
    0 !in s.key && (s.Group? ==> (s.valueType == 1 ==> |s.value| % 2 == 0) && ReadableAll(s.children))
  }

  predicate ReadableAll(children: seq<Source>)
    decreases children
  {
    children == [] || (Readable(children[0]) && ReadableAll(children[1..]))
  }

  // ----- The reader inverts the writers -----

  lemma {:induction false} KeyReads(b: seq<Byte>, p: nat, end: nat, key: seq<Unit>)
    requires 0 !in key && At(b, p, Wstr(key)) && p + |Wstr(key)| <= end <= |b|
    ensures ReadKey(b, p, end) == Some(key)
    decreases key
  {
    if key == [] {
      assert [0][1..] == [];
      assert Utf16([0]) == Le16(0) + Utf16([]);
      Le16At(b, p, 0);
    } else {
      assert (key + [0])[1..] == key[1..] + [0] && (key + [0])[0] == key[0];
      assert key == [key[0]] + key[1..];
      assert Wstr(key) == Le16(key[0]) + Wstr(key[1..]);
      AtParts(b, p, Le16(key[0]), Wstr(key[1..]));
      Le16At(b, p, key[0]);
      KeyReads(b, p + 2, end, key[1..]);
    }
  }

  lemma HeaderReads(b: seq<Byte>, p: nat, body: seq<Byte>, valueLength: nat, valueType: nat)
    requires 6 <= |body| < U16_LIMIT && valueLength < U16_LIMIT && valueType < U16_LIMIT
    requires At(b, p, Stamped(body, valueLength, valueType))
    ensures U16At(b, p) == |body| && U16At(b, p + 2) == valueLength && U16At(b, p + 4) == valueType
    ensures At(b, p + 6, body[6..])
  {
    var header := Header(|body|, valueLength, valueType);
    AtParts(b, p, header, body[6..]);
    AtParts(b, p, Le16(|body|) + Le16(valueLength), Le16(valueType));
    AtParts(b, p, Le16(|body|), Le16(valueLength));
    Le16At(b, p, |body|);
    Le16At(b, p + 2, valueLength);
    Le16At(b, p + 4, valueType);
  }

  /** After the header come the key and, 4-aligned, the rest of the body. */
  lemma BodyReads(b: seq<Byte>, p: nat, key: seq<Unit>, rest: seq<Byte>)
    requires At(b, p + 6, (KeyPart(key) + rest)[6..])
    ensures At(b, p + 6, Wstr(key)) && At(b, p + |KeyPart(key)|, rest)
  {
    var pad := Zeros(PadCount(|Zeros(6) + Wstr(key)|));
    assert (KeyPart(key) + rest)[6..] == Wstr(key) + (pad + rest);
    AtParts(b, p + 6, Wstr(key), pad + rest);
    AtParts(b, p + 6 + |Wstr(key)|, pad, rest);
  }

  lemma {:induction false} JoinedFront(first: seq<Byte>, rest: seq<seq<Byte>>)
    ensures Joined([first] + rest) == Pad4(first) + Joined(rest)
    decreases rest
  {
    var all := [first] + rest;
    if rest == [] {
      assert all[..0] == [] && Joined(all) == Joined(all[..0]) + Pad4(first);
    } else {
      var k := |rest| - 1;
      assert all[..|all| - 1] == [first] + rest[..k];
      JoinedFront(first, rest[..k]);
      ConcatAssociates(Pad4(first), Joined(rest[..k]), Pad4(rest[k]));
    }
  }

  /**
   * Reading what the writers wrote, at any 4-aligned place of any buffer, gives back keys, values and
   * child order, whether padding is counted from the start of the buffer or of the block.
   */
  lemma {:induction false} ReadsBack(absolute: bool, b: seq<Byte>, p: nat, end: nat, s: Source)
    requires Emit(s).Some? && Readable(s)
    requires Aligned(p) && At(b, p, Emit(s).value) && p + |Emit(s).value| <= end <= |b|
    ensures ReadBlock(absolute, b, p, end) == Some(Meaning(s))
    decreases s, 1
  {
    match s
    case Text(key, text) =>
      TextReadsBack(absolute, b, p, end, key, text);
    case Group(key, valueType, value, children) =>
      GroupReadsBack(absolute, b, p, end, s);
  }

  /** The fixed part of any block reads back, and its value starts where the reader looks for it. */
  lemma HeadReads(absolute: bool, b: seq<Byte>, p: nat, key: seq<Unit>, rest: seq<Byte>, valueLength: nat,
                  valueType: nat)
    requires 0 !in key && Aligned(p)
    requires |KeyPart(key) + rest| < U16_LIMIT && valueLength < U16_LIMIT && valueType < U16_LIMIT
    requires At(b, p, Stamped(KeyPart(key) + rest, valueLength, valueType))
    ensures U16At(b, p) == |KeyPart(key)| + |rest| && U16At(b, p + 2) == valueLength && U16At(b, p + 4) == valueType
    ensures ReadKey(b, p + 6, p + |KeyPart(key)| + |rest|) == Some(key)
    ensures PadEnd(absolute, p, p + 6 + 2 * |key| + 2) == p + |KeyPart(key)|
    ensures At(b, p + |KeyPart(key)|, rest)
  {
    var body := KeyPart(key) + rest;
    HeaderReads(b, p, body, valueLength, valueType);
    BodyReads(b, p, key, rest);
    KeyReads(b, p + 6, p + |body|, key);
    PadAfter(absolute, p, p, Zeros(6) + Wstr(key));
  }

  /** Inside a 4-aligned block, both ways of padding what stands at an aligned place agree. */
  lemma PadAfter(absolute: bool, start: nat, c: nat, data: seq<Byte>)
    requires Aligned(start) && Aligned(c) && start <= c
    ensures PadEnd(absolute, start, c + |data|) == c + |Pad4(data)|
    ensures Aligned(c + |Pad4(data)|)
  {
    PadShift(c, |data|);
    PadShift(start, c - start + |data|);
    PadAligns(data);
    PadShift(c, |Pad4(data)|);
  }

  lemma TextReadsBack(absolute: bool, b: seq<Byte>, p: nat, end: nat, key: seq<Unit>, text: seq<Unit>)
    requires 0 !in key && |StringBody(key, text)| < U16_LIMIT
    requires Aligned(p) && At(b, p, Stamped(StringBody(key, text), |text| + 1, 1))
    requires p + |StringBody(key, text)| <= end <= |b|
    ensures ReadBlock(absolute, b, p, end) == Some(Block(key, 1, Wstr(text), []))
  {
    HeadReads(absolute, b, p, key, Wstr(text), |text| + 1, 1);
    var stop := p + |StringBody(key, text)|;
    BlockParts(absolute, b, p, end, key, 1, Wstr(text), p + |KeyPart(key)|, PadEnd(absolute, p, stop), stop, []);
  }

  /** The reader finds the block at `p` to end at `stop`, with its value at `v` and its children at `c`. */
  ghost predicate Places(absolute: bool, b: seq<Byte>, p: nat, key: seq<Unit>, valueType: nat, value: seq<Byte>,
                         v: nat, c: nat, stop: nat)
  {
    p + 6 <= stop <= |b| && stop == p + U16At(b, p) && U16At(b, p + 4) == valueType &&
    ReadKey(b, p + 6, stop) == Some(key) &&
    |value| == (if valueType == 1 then 2 * U16At(b, p + 2) else U16At(b, p + 2)) &&
    v == PadEnd(absolute, p, p + 6 + 2 * |key| + 2) && v + |value| <= stop && At(b, v, value) &&
    c == if value == [] then v else PadEnd(absolute, p, v + |value|)
  }

  lemma BlockParts(absolute: bool, b: seq<Byte>, p: nat, end: nat, key: seq<Unit>, valueType: nat, value: seq<Byte>,
                   v: nat, c: nat, stop: nat, children: seq<Block>)
    requires Places(absolute, b, p, key, valueType, value, v, c, stop) && stop <= end <= |b|
    requires ReadChildren(absolute, b, p, c, stop) == Some(children)
    ensures ReadBlock(absolute, b, p, end) == Some(Block(key, valueType, value, children))
  {
  }

  lemma PaddedReads(b: seq<Byte>, v: nat, value: seq<Byte>, rest: seq<Byte>)
    requires At(b, v, Pad4(value) + rest)
    ensures At(b, v, value) && At(b, v + |Pad4(value)|, rest)
  {
    AtParts(b, v, Pad4(value), rest);
    AtParts(b, v, value, Zeros(PadCount(|value|)));
  }

  lemma LengthFieldSize(valueType: nat, value: seq<Byte>)
    requires valueType == 1 ==> |value| % 2 == 0
    ensures |value| == if valueType == 1 then 2 * LengthField(valueType, value) else LengthField(valueType, value)
  {
  }

  /** Where the value of a block at an aligned place ends, with its padding. */
  lemma ValueEnds(absolute: bool, p: nat, key: seq<Unit>, value: seq<Byte>)
    requires Aligned(p)
    ensures PadEnd(absolute, p, p + |KeyPart(key)| + |value|) == p + |KeyPart(key)| + |Pad4(value)|
    ensures Aligned(p + |KeyPart(key)| + |Pad4(value)|)
  {
    PadAligns(Zeros(6) + Wstr(key));
    PadShift(p, |KeyPart(key)|);
    PadAfter(absolute, p, p + |KeyPart(key)|, value);
  }

  lemma GroupHead(absolute: bool, b: seq<Byte>, p: nat, key: seq<Unit>, valueType: nat, value: seq<Byte>,
                  parts: seq<Byte>)
    returns (v: nat, c: nat, stop: nat)
    requires 0 !in key && Aligned(p) && (valueType == 1 ==> |value| % 2 == 0)
    requires |KeyPart(key) + (Pad4(value) + parts)| < U16_LIMIT && LengthField(valueType, value) < U16_LIMIT
    requires valueType < U16_LIMIT
    requires At(b, p, Stamped(KeyPart(key) + (Pad4(value) + parts), LengthField(valueType, value), valueType))
    ensures Places(absolute, b, p, key, valueType, value, v, c, stop)
    ensures stop == c + |parts| == p + |KeyPart(key) + (Pad4(value) + parts)|
    ensures At(b, c, parts) && Aligned(c) && p <= c
  {
    v := p + |KeyPart(key)|;
    c := v + |Pad4(value)|;
    stop := c + |parts|;
    HeadReads(absolute, b, p, key, Pad4(value) + parts, LengthField(valueType, value), valueType);
    BodyPlaces(absolute, b, p, key, valueType, value, parts, v, c, stop);
  }

  /** Behind a head that reads, the value and the children stand where the reader looks for them. */
  lemma BodyPlaces(absolute: bool, b: seq<Byte>, p: nat, key: seq<Unit>, valueType: nat, value: seq<Byte>,
                   parts: seq<Byte>,
                   v: nat, c: nat, stop: nat)
    requires Aligned(p) && (valueType == 1 ==> |value| % 2 == 0)
    requires v == p + |KeyPart(key)| && c == v + |Pad4(value)| && stop == c + |parts| && At(b, v, Pad4(value) + parts)
    requires p + 6 <= stop && stop == p + U16At(b, p) && U16At(b, p + 2) == LengthField(valueType, value)
    requires U16At(b, p + 4) == valueType && ReadKey(b, p + 6, stop) == Some(key)
    requires PadEnd(absolute, p, p + 6 + 2 * |key| + 2) == v
    ensures Places(absolute, b, p, key, valueType, value, v, c, stop) && At(b, c, parts) && Aligned(c)
  {
    PaddedReads(b, v, value, parts);
    LengthFieldSize(valueType, value);
    ValueEnds(absolute, p, key, value);
  }

  lemma {:induction false} GroupReadsBack(absolute: bool, b: seq<Byte>, p: nat, end: nat, s: Source)
    requires s.Group? && Emit(s).Some? && Readable(s)
    requires Aligned(p) && At(b, p, Emit(s).value) && p + |Emit(s).value| <= end <= |b|
    ensures ReadBlock(absolute, b, p, end) == Some(Meaning(s))
    decreases s, 0
  {
    var v, c, stop := GroupPlaces(absolute, b, p, s);
    ChildrenReadBack(absolute, b, p, c, stop, s.children);
    BlockParts(absolute, b, p, end, s.key, s.valueType, s.value, v, c, stop, MeaningAll(s.children));
  }

  lemma GroupPlaces(absolute: bool, b: seq<Byte>, p: nat, s: Source) returns (v: nat, c: nat, stop: nat)
    requires s.Group? && Emit(s).Some? && Readable(s) && Aligned(p) && At(b, p, Emit(s).value)
    ensures EmitAll(s.children).Some? && At(b, c, Joined(EmitAll(s.children).value))
    ensures Places(absolute, b, p, s.key, s.valueType, s.value, v, c, stop)
    ensures stop == p + |Emit(s).value| == c + |Joined(EmitAll(s.children).value)| && p <= c && Aligned(c)
  {
    var parts := EmitAll(s.children).value;
    var joined := Joined(parts);
    assert ContainerBody(s.key, parts, s.value) == KeyPart(s.key) + (Pad4(s.value) + joined);
    v, c, stop := GroupHead(absolute, b, p, s.key, s.valueType, s.value, joined);
  }

  /** After the child at `c`, the reader of the block at `start` goes on at `next`. */
  ghost predicate NextChild(absolute: bool, b: seq<Byte>, start: nat, c: nat, next: nat)
  {
    start <= c && c + 2 <= |b| && next == PadEnd(absolute, start, c + U16At(b, c))
  }

  lemma NextAfter(absolute: bool, b: seq<Byte>, start: nat, c: nat, child: seq<Byte>)
    requires Aligned(start) && Aligned(c) && start <= c && c + 2 <= |b| && U16At(b, c) == |child|
    ensures NextChild(absolute, b, start, c, c + |Pad4(child)|) && Aligned(c + |Pad4(child)|)
  {
    PadAfter(absolute, start, c, child);
  }

  lemma ChildrenStep(absolute: bool, b: seq<Byte>, start: nat, c: nat, next: nat, end: nat, first: Block,
                     rest: seq<Block>)
    requires NextChild(absolute, b, start, c, next) && c < end <= |b|
    requires ReadBlock(absolute, b, c, end) == Some(first)
    requires ReadChildren(absolute, b, start, next, end) == Some(rest)
    ensures ReadChildren(absolute, b, start, c, end) == Some([first] + rest)
  {
  }

  lemma JoinedReads(b: seq<Byte>, c: nat, first: seq<Byte>, rest: seq<seq<Byte>>)
    requires At(b, c, Joined([first] + rest))
    ensures At(b, c, first) && At(b, c + |Pad4(first)|, Joined(rest))
    ensures |Joined([first] + rest)| == |Pad4(first)| + |Joined(rest)|
  {
    JoinedFront(first, rest);
    PaddedReads(b, c, first, Joined(rest));
  }

  /** The first child reads back, and the reader looks for the next one where the writer put it. */
  lemma {:induction false} FirstChildReads(absolute: bool, b: seq<Byte>, start: nat, c: nat, end: nat, s: Source,
                                           rest: seq<seq<Byte>>)
    returns (next: nat)
    requires Emit(s).Some? && Readable(s)
    requires Aligned(start) && Aligned(c) && start <= c
    requires At(b, c, Joined([Emit(s).value] + rest)) && end == c + |Joined([Emit(s).value] + rest)| <= |b|
    ensures c < end && ReadBlock(absolute, b, c, end) == Some(Meaning(s))
    ensures NextChild(absolute, b, start, c, next) && Aligned(next) && start <= next
    ensures At(b, next, Joined(rest)) && end == next + |Joined(rest)|
    decreases s, 2
  {
    var first := Emit(s).value;
    next := c + |Pad4(first)|;
    JoinedReads(b, c, first, rest);
    ReadsBack(absolute, b, c, end, s);
    EmitLength(b, c, s);
    NextAfter(absolute, b, start, c, first);
  }

  lemma {:induction false} ChildrenReadBack(absolute: bool, b: seq<Byte>, start: nat, c: nat, end: nat,
                                            children: seq<Source>)
    requires EmitAll(children).Some? && ReadableAll(children)
    requires Aligned(start) && Aligned(c) && start <= c
    requires At(b, c, Joined(EmitAll(children).value)) && end == c + |Joined(EmitAll(children).value)| <= |b|
    ensures ReadChildren(absolute, b, start, c, end) == Some(MeaningAll(children))
    decreases children
  {
    if children != [] {
      var next := FirstChildReads(absolute, b, start, c, end, children[0], EmitAll(children[1..]).value);
      ChildrenReadBack(absolute, b, start, next, end, children[1..]);
      ChildrenStep(absolute, b, start, c, next, end, Meaning(children[0]), MeaningAll(children[1..]));
    }
  }

  /** The length field of every block is its byte length. */
  lemma EmitLength(b: seq<Byte>, p: nat, s: Source)
    requires Emit(s).Some? && At(b, p, Emit(s).value)
    ensures U16At(b, p) == |Emit(s).value|
  {
    match s
    case Text(key, text) =>
      HeaderReads(b, p, StringBody(key, text), |text| + 1, 1);
    case Group(key, valueType, value, children) =>
      HeaderReads(b, p, ContainerBody(key, EmitAll(children).value, value), LengthField(valueType, value), valueType);
  }

  // ----- The VERSIONINFO resource -----

  const CODEPAGE_UNICODE: nat := 1200

  datatype Version = Version(major: nat, minor: nat, patch: nat, build: nat)

  /** What the command line accepts: four 16-bit parts. */
  predicate ValidVersion(v: Version)
  {
    v.major < U16_LIMIT && v.minor < U16_LIMIT && v.patch < U16_LIMIT && v.build < U16_LIMIT
  }

  function AsUnits(s: string): (units: seq<Unit>)
    ensures |units| == |s|
  {
    seq(|s|, i requires 0 <= i < |s| => (s[i] as int) % U16_LIMIT)
  }

  function Decimal(n: nat): string
  {
    var digit := ['0' + (n % 10) as char];
    if n < 10 then digit else Decimal(n / 10) + digit
  }

  function VersionText(v: Version): seq<Unit>
  {
    AsUnits(Decimal(v.major) + "." + Decimal(v.minor) + "." + Decimal(v.patch) + "." + Decimal(v.build))
  }

  /** `(high << 16) | low` in a 32-bit field. */
  function Packed(high: nat, low: nat): seq<Byte>
    requires high < U16_LIMIT && low < U16_LIMIT
  {
    Le16(low) + Le16(high)
  }

  function FixedInfo(v: Version): (b: seq<Byte>)
    requires ValidVersion(v)
    ensures |b| == 52
  {
    Le32(0xFEEF04BD) + Le32(0x00010000) +
    Packed(v.major, v.minor) + Packed(v.patch, v.build) + Packed(v.major, v.minor) + Packed(v.patch, v.build) +
    Le32(0x3F) + Le32(0) + Le32(0x00040004) + Le32(1) + Le32(0) + Le32(0) + Le32(0)
  }

  function Description(role: string): (string, string)
  {
    if role == "setup" then ("Ghost FTP Setup", "GhostFTPSetup")
    else if role == "updater" then ("Ghost FTP Update", "GhostFTPUpdate")
    else ("Ghost FTP file transfer client", "GhostFTP")
  }

  function Strings(v: Version, filename: seq<Unit>, role: string): seq<(seq<Unit>, seq<Unit>)>
  {
    var (description, internalName) := Description(role);
    [ (AsUnits("CompanyName"), AsUnits("Ghost FTP")),
      (AsUnits("FileDescription"), AsUnits(description)),
      (AsUnits("FileVersion"), VersionText(v)),
      (AsUnits("InternalName"), AsUnits(internalName)),
      (AsUnits("LegalCopyright"), AsUnits("Copyright \U{A9} 2026 Ghost FTP")),
      (AsUnits("OriginalFilename"), filename),
      (AsUnits("ProductName"), AsUnits("Ghost FTP")),
      (AsUnits("ProductVersion"), VersionText(v)),
      (AsUnits("Comments"),
       AsUnits("Secure FTP, FTPS and SFTP client \U{2014} " + "Ghost FTP \U{2014} github.com/bren-wp/Host-FTP")) ]
  }

  function Texts(strings: seq<(seq<Unit>, seq<Unit>)>): seq<Source>
  {
    seq(|strings|, i requires 0 <= i < |strings| => Text(strings[i].0, strings[i].1))
  }

  function StringTable(strings: seq<(seq<Unit>, seq<Unit>)>): Source
  {
    Group(AsUnits("040904B0"), 1, [], Texts(strings))
  }

  function StringFileInfo(strings: seq<(seq<Unit>, seq<Unit>)>): Source
  {
    Group(AsUnits("StringFileInfo"), 1, [], [StringTable(strings)])
  }

  function VarFileInfo(): Source
  {
    Group(AsUnits("VarFileInfo"), 1, [],
          [Group(AsUnits("Translation"), 0, Le16(LANG_EN_US) + Le16(CODEPAGE_UNICODE), [])])
  }

  /** The block tree of a version resource. */
  function VersionTree(v: Version, filename: seq<Unit>, role: string): Source
    requires ValidVersion(v)
  {
    Group(AsUnits("VS_VERSION_INFO"), 0, FixedInfo(v), [StringFileInfo(Strings(v, filename, role)), VarFileInfo()])
  }

  lemma {:induction false} EmitAllAppend(children: seq<Source>, last: Source)
    ensures EmitAll(children + [last]).Some? <==> EmitAll(children).Some? && Emit(last).Some?
    ensures EmitAll(children + [last]).Some? ==>
              EmitAll(children + [last]).value == EmitAll(children).value + [Emit(last).value]
  {
    if children == [] {
      assert children + [last] == [last] && [last][1..] == [];
    } else {
      assert (children + [last])[1..] == children[1..] + [last] && (children + [last])[0] == children[0];
      EmitAllAppend(children[1..], last);
    }
  }

  method MakeTexts(strings: seq<(seq<Unit>, seq<Unit>)>) returns (r: Result<seq<seq<Byte>>, PackError>)
    ensures r.Ok? <==> EmitAll(Texts(strings)).Some?
    ensures r.Ok? ==> r.value == EmitAll(Texts(strings)).value
  {
    ghost var texts := Texts(strings);
    var blocks: seq<seq<Byte>> := [];
    for i := 0 to |strings|
      invariant EmitAll(texts[..i]).Some? && EmitAll(texts[..i]).value == blocks
    {
      var block := MakeStringBlock(strings[i].0, strings[i].1);
      EmitAllAppend(texts[..i], texts[i]);
      assert texts[..i + 1] == texts[..i] + [texts[i]];
      if block.Err? {
        EmitAllPrefix(texts, i + 1);
        return Err(FieldOverflow);
      }
      blocks := blocks + [block.value];
    }
    assert texts[..|strings|] == texts;
    return Ok(blocks);
  }

  method MakeStringTable(strings: seq<(seq<Unit>, seq<Unit>)>) returns (r: Result<seq<Byte>, PackError>)
    ensures r.Ok? <==> Emit(StringTable(strings)).Some?
    ensures r.Ok? ==> r.value == Emit(StringTable(strings)).value
  {
    var blocks := MakeTexts(strings);
    if blocks.Err? { return Err(blocks.error); }
    r := MakeContainerBlock(AsUnits("040904B0"), blocks.value, [], 0, 1);
  }

  lemma {:induction false} EmitAllPrefix(children: seq<Source>, n: nat)
    requires n <= |children| && EmitAll(children[..n]) == None
    ensures EmitAll(children) == None
    decreases |children| - n
  {
    if n < |children| {
      EmitAllAppend(children[..n], children[n]);
      assert children[..n + 1] == children[..n] + [children[n]];
      EmitAllPrefix(children, n + 1);
    } else {
      assert children[..n] == children;
    }
  }

  method MakeStringFileInfo(strings: seq<(seq<Unit>, seq<Unit>)>) returns (r: Result<seq<Byte>, PackError>)
    ensures r.Ok? <==> Emit(StringFileInfo(strings)).Some?
    ensures r.Ok? ==> r.value == Emit(StringFileInfo(strings)).value
  {
    var stringTable := MakeStringTable(strings);
    EmitOne(StringTable(strings));
    if stringTable.Err? { return stringTable; }
    r := MakeContainerBlock(AsUnits("StringFileInfo"), [stringTable.value], [], 0, 1);
  }

  method MakeVarFileInfo() returns (r: Result<seq<Byte>, PackError>)
    ensures r.Ok? <==> Emit(VarFileInfo()).Some?
    ensures r.Ok? ==> r.value == Emit(VarFileInfo()).value
  {
    var translation := Le16(LANG_EN_US) + Le16(CODEPAGE_UNICODE);
    EmitOne(Group(AsUnits("Translation"), 0, translation, []));
    var varTranslation := MakeContainerBlock(AsUnits("Translation"), [], translation, |translation|, 0);
    if varTranslation.Err? { return varTranslation; }
    r := MakeContainerBlock(AsUnits("VarFileInfo"), [varTranslation.value], [], 0, 1);
  }

  /** The bytes of the version tree, or the overflow of some length field. */
  method MakeVersionInfo(v: Version, filename: seq<Unit>, role: string) returns (r: Result<seq<Byte>, PackError>)
    requires ValidVersion(v)
    ensures r.Ok? <==> Emit(VersionTree(v, filename, role)).Some?
    ensures r.Ok? ==> r.value == Emit(VersionTree(v, filename, role)).value
  {
    var fixedInfo := FixedInfo(v);
    var strings := Strings(v, filename, role);
    EmitPair(StringFileInfo(strings), VarFileInfo());
    var stringFileInfo := MakeStringFileInfo(strings);
    if stringFileInfo.Err? { return stringFileInfo; }
    var varFileInfo := MakeVarFileInfo();
    if varFileInfo.Err? { return varFileInfo; }
    r := MakeContainerBlock(AsUnits("VS_VERSION_INFO"), [stringFileInfo.value, varFileInfo.value], fixedInfo,
                            |fixedInfo|, 0);
  }

  lemma EmitOne(s: Source)
    ensures EmitAll([s]).Some? <==> Emit(s).Some?
    ensures Emit(s).Some? ==> EmitAll([s]).value == [Emit(s).value]
  {
    EmitAllAppend([], s);
    assert [] + [s] == [s];
  }

  lemma EmitPair(s: Source, t: Source)
    ensures EmitAll([s, t]).Some? <==> Emit(s).Some? && Emit(t).Some?
    ensures EmitAll([s, t]).Some? ==> EmitAll([s, t]).value == [Emit(s).value, Emit(t).value]
  {
    EmitOne(s);
    EmitAllAppend([s], t);
    assert [s] + [t] == [s, t];
  }

  lemma {:induction false} TextsReadable(strings: seq<(seq<Unit>, seq<Unit>)>)
    requires forall i :: 0 <= i < |strings| ==> 0 !in strings[i].0
    ensures ReadableAll(Texts(strings))
  {
    if strings != [] {
      TextsReadable(strings[1..]);
      assert Texts(strings)[1..] == Texts(strings[1..]);
    }
  }

  lemma AsciiKey(s: string)
    requires forall i :: 0 <= i < |s| ==> '0' <= s[i] <= 'z'
    ensures 0 !in AsUnits(s)
  {
  }

  lemma StringKeysReadable(v: Version, filename: seq<Unit>, role: string)
    ensures ReadableAll(Texts(Strings(v, filename, role)))
  {
    FirstKeysReadable();
    MiddleKeysReadable();
    LastKeysReadable();
    TextsReadable(Strings(v, filename, role));
  }

  lemma FirstKeysReadable()
    ensures 0 !in AsUnits("CompanyName") && 0 !in AsUnits("FileDescription") && 0 !in AsUnits("FileVersion")
  {
    AsciiKey("CompanyName");
    AsciiKey("FileDescription");
    AsciiKey("FileVersion");
  }

  lemma MiddleKeysReadable()
    ensures 0 !in AsUnits("InternalName") && 0 !in AsUnits("LegalCopyright") && 0 !in AsUnits("OriginalFilename")
  {
    AsciiKey("InternalName");
    AsciiKey("LegalCopyright");
    AsciiKey("OriginalFilename");
  }

  lemma LastKeysReadable()
    ensures 0 !in AsUnits("ProductName") && 0 !in AsUnits("ProductVersion") && 0 !in AsUnits("Comments")
  {
    AsciiKey("ProductName");
    AsciiKey("ProductVersion");
    AsciiKey("Comments");
  }

  lemma VarFileInfoReadable()
    ensures ReadableAll([VarFileInfo()])
  {
    AsciiKey("Translation");
    AsciiKey("VarFileInfo");
    PairReadable(Group(AsUnits("Translation"), 0, Le16(LANG_EN_US) + Le16(CODEPAGE_UNICODE), []), []);
    PairReadable(VarFileInfo(), []);
  }

  lemma StringFileInfoReadable(strings: seq<(seq<Unit>, seq<Unit>)>)
    requires ReadableAll(Texts(strings))
    ensures Readable(StringFileInfo(strings))
  {
    AsciiKey("040904B0");
    AsciiKey("StringFileInfo");
    PairReadable(StringTable(strings), []);
  }

  lemma VersionTreeReadable(v: Version, filename: seq<Unit>, role: string)
    requires ValidVersion(v)
    ensures Readable(VersionTree(v, filename, role))
  {
    var strings := Strings(v, filename, role);
    AsciiKey("VS_VERSION_INFO");
    StringKeysReadable(v, filename, role);
    StringFileInfoReadable(strings);
    VarFileInfoReadable();
    PairReadable(StringFileInfo(strings), [VarFileInfo()]);
  }

  lemma PairReadable(first: Source, rest: seq<Source>)
    ensures ReadableAll([first] + rest) <==> Readable(first) && ReadableAll(rest)
  {
    assert ([first] + rest)[1..] == rest;
  }

  /** A version resource, wherever it stands 4-aligned, reads back as its tree under both padding rules. */
  lemma VersionInfoReadsBack(absolute: bool, v: Version, filename: seq<Unit>, role: string, b: seq<Byte>, p: nat,
                             end: nat)
    requires ValidVersion(v) && Emit(VersionTree(v, filename, role)).Some?
    requires p % 4 == 0 && At(b, p, Emit(VersionTree(v, filename, role)).value)
    requires p + |Emit(VersionTree(v, filename, role)).value| <= end <= |b|
    ensures ReadBlock(absolute, b, p, end) == Some(Meaning(VersionTree(v, filename, role)))
    ensures VersionSays(ReadBlock(absolute, b, p, end).value, v, filename, role)
  {
    VersionTreeSays(v, filename, role);
    VersionTreeReadable(v, filename, role);
    PadCountIsMod(p);
    ReadsBack(absolute, b, p, end, VersionTree(v, filename, role));
  }

  /** The text under a key is recovered from a text value. */
  function TextOf(value: seq<Byte>): seq<Unit>
  {
    if |value| < 4 then [] else [U16At(value, 0)] + TextOf(value[2..])
  }

  lemma {:induction false} TextRecovered(text: seq<Unit>)
    ensures TextOf(Wstr(text)) == text
  {
    if text != [] {
      TextRecovered(text[1..]);
      assert (text + [0])[1..] == text[1..] + [0] && (text + [0])[0] == text[0];
      assert Wstr(text) == Le16(text[0]) + Wstr(text[1..]);
      assert Wstr(text)[2..] == Wstr(text[1..]);
      Le16At(Wstr(text), 0, text[0]);
    }
  }

  // ----- What a reader learns from a version resource -----

  /** The code units of a text without characters beyond 16 bits. */
  predicate Spells(units: seq<Unit>, text: string)
  {
    |units| == |text| && forall i :: 0 <= i < |text| ==> units[i] == text[i] as int
  }

  /** The first block under this key. */
  function Find(blocks: seq<Block>, key: string): Option<Block>
  {
    if blocks == [] then None else if Spells(blocks[0].key, key) then Some(blocks[0]) else Find(blocks[1..], key)
  }

  function Child(block: Option<Block>, key: string): Option<Block>
  {
    if block == None then None else Find(block.value.children, key)
  }

  /** The text that the string table for US English holds under this key. */
  function StringAt(block: Block, key: string): Option<seq<Unit>>
  {
    var found := Child(Child(Child(Some(block), "StringFileInfo"), "040904B0"), key);
    if found == None then None else Some(TextOf(found.value.value))
  }

  predicate Says(block: Block, key: string, text: string)
  {
    StringAt(block, key).Some? && Spells(StringAt(block, key).value, text)
  }

  function Number(digits: string): int
  {
    if digits == "" then 0
    else Number(digits[..|digits| - 1]) * 10 + (digits[|digits| - 1] as int - '0' as int)
  }

  /** The decimal numeral of `n`, without leading zeros. */
  predicate Numeral(digits: string, n: nat)
  {
    digits != "" && (forall i :: 0 <= i < |digits| ==> '0' <= digits[i] <= '9') && Number(digits) == n &&
    (|digits| > 1 ==> digits[0] != '0')
  }

  /** The four parts of the version, separated by dots. */
  ghost predicate Dotted(text: string, v: Version)
  {
    exists a, b, c, d ::
      Numeral(a, v.major) && Numeral(b, v.minor) && Numeral(c, v.patch) && Numeral(d, v.build) &&
      text == a + "." + b + "." + c + "." + d
  }

  ghost predicate SaysVersion(block: Block, key: string, v: Version)
  {
    exists text :: Dotted(text, v) && Says(block, key, text)
  }

  /** The fixed part: signature, structure version, the version twice, flag mask, system and kind of file. */
  predicate FixedSays(value: seq<Byte>, v: Version)
  {
    |value| == 52 && U32At(value, 0) == 0xFEEF04BD && U32At(value, 4) == 0x0001_0000 &&
    U32At(value, 8) == 0x1_0000 * v.major + v.minor && U32At(value, 12) == 0x1_0000 * v.patch + v.build &&
    U32At(value, 16) == 0x1_0000 * v.major + v.minor && U32At(value, 20) == 0x1_0000 * v.patch + v.build &&
    U32At(value, 24) == 0x3F && U32At(value, 28) == 0 && U32At(value, 32) == 0x0004_0004 && U32At(value, 36) == 1 &&
    U32At(value, 40) == 0 && U32At(value, 44) == 0 && U32At(value, 48) == 0
  }

  ghost predicate ProductSays(block: Block)
  {
    Says(block, "CompanyName", "Ghost FTP") && Says(block, "ProductName", "Ghost FTP") &&
    Says(block, "LegalCopyright", "Copyright \U{A9} 2026 Ghost FTP") &&
    Says(block, "Comments",
         "Secure FTP, FTPS and SFTP client \U{2014} " + "Ghost FTP \U{2014} github.com/bren-wp/Host-FTP")
  }

  ghost predicate RoleSays(block: Block, role: string)
  {
    Says(block, "FileDescription",
         if role == "setup" then "Ghost FTP Setup" else if role == "updater" then "Ghost FTP Update"
         else "Ghost FTP file transfer client") &&
    Says(block, "InternalName",
         if role == "setup" then "GhostFTPSetup" else if role == "updater" then "GhostFTPUpdate" else "GhostFTP")
  }

  /** The texts a user sees in the properties of the file. */
  ghost predicate StringsSay(block: Block, v: Version, filename: seq<Unit>, role: string)
  {
    ProductSays(block) && RoleSays(block, role) &&
    SaysVersion(block, "FileVersion", v) && SaysVersion(block, "ProductVersion", v) &&
    StringAt(block, "OriginalFilename") == Some(filename)
  }

  /** Language and code page: US English and Unicode. */
  predicate TranslationSays(block: Block)
  {
    var found := Child(Child(Some(block), "VarFileInfo"), "Translation");
    found.Some? && |found.value.value| == 4 && U16At(found.value.value, 0) == 0x0409 &&
    U16At(found.value.value, 2) == 1200
  }

  ghost predicate VersionSays(block: Block, v: Version, filename: seq<Unit>, role: string)
  {
    Spells(block.key, "VS_VERSION_INFO") && FixedSays(block.value, v) && StringsSay(block, v, filename, role) &&
    TranslationSays(block)
  }

  lemma {:induction false} DecimalIsNumeral(n: nat)
    ensures Numeral(Decimal(n), n) && (n > 0 ==> Decimal(n)[0] != '0')
  {
    if n >= 10 {
      DecimalIsNumeral(n / 10);
      assert Decimal(n)[..|Decimal(n)| - 1] == Decimal(n / 10);
    } else {
      assert Number(Decimal(n)[..0]) == 0;
    }
  }

  lemma VersionTextIsDotted(v: Version)
    ensures exists text :: Dotted(text, v) && VersionText(v) == AsUnits(text) && Spells(VersionText(v), text)
  {
    DecimalIsNumeral(v.major);
    DecimalIsNumeral(v.minor);
    DecimalIsNumeral(v.patch);
    DecimalIsNumeral(v.build);
    var a, b, c, d := Decimal(v.major), Decimal(v.minor), Decimal(v.patch), Decimal(v.build);
    var text := a + "." + b + "." + c + "." + d;
    assert Dotted(text, v);
    assert forall i :: 0 <= i < |text| ==> '.' <= text[i] <= '9';
    UnitsSpell(text);
  }

  /** No character beyond 16 bits. */
  predicate Narrow(text: string)
  {
    forall i :: 0 <= i < |text| ==> text[i] as int < U16_LIMIT
  }

  lemma UnitsSpell(text: string)
    requires Narrow(text)
    ensures Spells(AsUnits(text), text)
  {
  }

  lemma PackedIs(high: nat, low: nat)
    requires high < U16_LIMIT && low < U16_LIMIT
    ensures 0x1_0000 * high + low < U32_LIMIT && Packed(high, low) == Le32(0x1_0000 * high + low)
  {
    var n := 0x1_0000 * high + low;
    assert n % U16_LIMIT == low && n / U16_LIMIT == high;
  }

  /** The last of several words is at their end, and the others are before it. */
  lemma LastWord(b: seq<Byte>, front: seq<Byte>, v: nat)
    requires v < U32_LIMIT && At(b, 0, front + Le32(v))
    ensures At(b, 0, front) && |front| + 4 <= |b| && U32At(b, |front|) == v
  {
    AtParts(b, 0, front, Le32(v));
    Le32At(b, |front|, v);
  }

  lemma FixedReads(v: Version)
    requires ValidVersion(v)
    ensures FixedSays(FixedInfo(v), v)
  {
    var high, low, b := 0x1_0000 * v.major + v.minor, 0x1_0000 * v.patch + v.build, FixedInfo(v);
    PackedIs(v.major, v.minor);
    PackedIs(v.patch, v.build);
    var w1 := Le32(0xFEEF04BD) + Le32(0x0001_0000);
    var w5 := w1 + Le32(high) + Le32(low) + Le32(high) + Le32(low);
    var w12 := w5 + Le32(0x3F) + Le32(0) + Le32(0x0004_0004) + Le32(1) + Le32(0) + Le32(0) + Le32(0);
    assert b == w12 && At(b, 0, w12);
    LastWords(b, w5);
    MiddleWords(b, w1, high, low);
    assert Le32(0xFEEF04BD) == [] + Le32(0xFEEF04BD);
    LastWord(b, Le32(0xFEEF04BD), 0x0001_0000);
    LastWord(b, [], 0xFEEF04BD);
  }

  lemma LastWords(b: seq<Byte>, w: seq<Byte>)
    requires At(b, 0, w + Le32(0x3F) + Le32(0) + Le32(0x0004_0004) + Le32(1) + Le32(0) + Le32(0) + Le32(0))
    requires |w| == 24
    ensures At(b, 0, w) && 52 <= |b| && U32At(b, 24) == 0x3F && U32At(b, 28) == 0 && U32At(b, 32) == 0x0004_0004
    ensures U32At(b, 36) == 1 && U32At(b, 40) == 0 && U32At(b, 44) == 0 && U32At(b, 48) == 0
  {
    var w6 := w + Le32(0x3F);
    var w7 := w6 + Le32(0);
    var w8 := w7 + Le32(0x0004_0004);
    var w9 := w8 + Le32(1);
    var w10 := w9 + Le32(0);
    var w11 := w10 + Le32(0);
    LastWord(b, w11, 0);
    LastWord(b, w10, 0);
    LastWord(b, w9, 0);
    LastWord(b, w8, 1);
    LastWord(b, w7, 0x0004_0004);
    LastWord(b, w6, 0);
    LastWord(b, w, 0x3F);
  }

  lemma MiddleWords(b: seq<Byte>, w: seq<Byte>, high: nat, low: nat)
    requires high < U32_LIMIT && low < U32_LIMIT && |w| == 8
    requires At(b, 0, w + Le32(high) + Le32(low) + Le32(high) + Le32(low))
    ensures At(b, 0, w) && 24 <= |b| && U32At(b, 8) == high && U32At(b, 12) == low
    ensures U32At(b, 16) == high && U32At(b, 20) == low
  {
    var w2 := w + Le32(high);
    var w3 := w2 + Le32(low);
    var w4 := w3 + Le32(high);
    LastWord(b, w4, low);
    LastWord(b, w3, high);
    LastWord(b, w2, low);
    LastWord(b, w, high);
  }

  /** Units that spell one text spell no other. */
  lemma SpellsOne(units: seq<Unit>, a: string, b: string)
    requires Spells(units, a) && (|a| != |b| || (a != "" && a[0] != b[0]))
    ensures !Spells(units, b)
  {
  }

  lemma {:induction false} FindText(strings: seq<(seq<Unit>, seq<Unit>)>, i: nat, key: string)
    requires i < |strings| && Spells(strings[i].0, key)
    requires forall j :: 0 <= j < i ==> !Spells(strings[j].0, key)
    ensures Find(MeaningAll(Texts(strings)), key) == Some(Block(strings[i].0, 1, Wstr(strings[i].1), []))
    decreases i
  {
    assert Texts(strings)[1..] == Texts(strings[1..]);
    assert MeaningAll(Texts(strings))[1..] == MeaningAll(Texts(strings[1..]));
    if i > 0 { FindText(strings[1..], i - 1, key); }
  }

  const KEYS: seq<string> := ["CompanyName", "FileDescription", "FileVersion", "InternalName", "LegalCopyright",
                              "OriginalFilename", "ProductName", "ProductVersion", "Comments"]

  lemma KeysSpell(i: nat)
    requires i < 9
    ensures Spells(AsUnits(KEYS[i]), KEYS[i])
  {
    UnitsSpell(KEYS[i]);
  }

  lemma KeysDiffer(i: nat, j: nat)
    requires j < i < 9
    ensures !Spells(AsUnits(KEYS[j]), KEYS[i])
  {
    KeysSpell(j);
    SpellsOne(AsUnits(KEYS[j]), KEYS[j], KEYS[i]);
  }

  lemma StringKeys(v: Version, filename: seq<Unit>, role: string)
    ensures |Strings(v, filename, role)| == 9
    ensures forall i :: 0 <= i < 9 ==> Strings(v, filename, role)[i].0 == AsUnits(KEYS[i])
  {
  }

  lemma FindFirst(first: Block, rest: seq<Block>, key: string)
    ensures Find([first] + rest, key) == if Spells(first.key, key) then Some(first) else Find(rest, key)
  {
    assert ([first] + rest)[1..] == rest;
  }

  lemma MeaningOfPair(first: Source, rest: seq<Source>)
    ensures MeaningAll([first] + rest) == [Meaning(first)] + MeaningAll(rest)
  {
    assert ([first] + rest)[1..] == rest;
  }

  /** The reader's way to the string table. */
  lemma StringTableFound(v: Version, filename: seq<Unit>, role: string)
    requires ValidVersion(v)
    ensures var strings := Strings(v, filename, role);
            Child(Child(Some(Meaning(VersionTree(v, filename, role))), "StringFileInfo"), "040904B0") ==
            Some(Meaning(StringTable(strings)))
  {
    var strings := Strings(v, filename, role);
    var info, table := Meaning(StringFileInfo(strings)), Meaning(StringTable(strings));
    UnitsSpell("StringFileInfo");
    UnitsSpell("040904B0");
    assert [StringFileInfo(strings)] + [VarFileInfo()] == [StringFileInfo(strings), VarFileInfo()];
    MeaningOfPair(StringFileInfo(strings), [VarFileInfo()]);
    FindFirst(info, MeaningAll([VarFileInfo()]), "StringFileInfo");
    assert [StringTable(strings)] + [] == [StringTable(strings)];
    MeaningOfPair(StringTable(strings), []);
    FindFirst(table, [], "040904B0");
  }

  lemma VarFileInfoFound(v: Version, filename: seq<Unit>, role: string)
    requires ValidVersion(v)
    ensures Child(Some(Meaning(VersionTree(v, filename, role))), "VarFileInfo") == Some(Meaning(VarFileInfo()))
  {
    var info := StringFileInfo(Strings(v, filename, role));
    UnitsSpell("StringFileInfo");
    UnitsSpell("VarFileInfo");
    SpellsOne(AsUnits("StringFileInfo"), "StringFileInfo", "VarFileInfo");
    assert [info] + [VarFileInfo()] == [info, VarFileInfo()] && [VarFileInfo()] + [] == [VarFileInfo()];
    MeaningOfPair(info, [VarFileInfo()]);
    MeaningOfPair(VarFileInfo(), []);
    FindFirst(Meaning(info), MeaningAll([VarFileInfo()]), "VarFileInfo");
    FindFirst(Meaning(VarFileInfo()), [], "VarFileInfo");
  }

  lemma TranslationFound(v: Version, filename: seq<Unit>, role: string)
    requires ValidVersion(v)
    ensures TranslationSays(Meaning(VersionTree(v, filename, role)))
  {
    var value := Le16(LANG_EN_US) + Le16(CODEPAGE_UNICODE);
    var translation := Group(AsUnits("Translation"), 0, value, []);
    VarFileInfoFound(v, filename, role);
    UnitsSpell("Translation");
    assert [translation] + [] == [translation];
    MeaningOfPair(translation, []);
    FindFirst(Meaning(translation), [], "Translation");
    TranslationReads();
  }

  lemma TranslationReads()
    ensures var value := Le16(LANG_EN_US) + Le16(CODEPAGE_UNICODE);
            |value| == 4 && U16At(value, 0) == 0x0409 && U16At(value, 2) == 1200
  {
    var value := Le16(LANG_EN_US) + Le16(CODEPAGE_UNICODE);
    assert At(value, 0, Le16(LANG_EN_US)) && At(value, 2, Le16(CODEPAGE_UNICODE));
    Le16At(value, 0, LANG_EN_US);
    Le16At(value, 2, CODEPAGE_UNICODE);
  }

  /** Under each of its keys the table holds its text. */
  lemma StringFound(v: Version, filename: seq<Unit>, role: string, i: nat)
    requires ValidVersion(v) && i < 9
    ensures |Strings(v, filename, role)| == 9
    ensures StringAt(Meaning(VersionTree(v, filename, role)), KEYS[i]) == Some(Strings(v, filename, role)[i].1)
  {
    var strings := Strings(v, filename, role);
    StringTableFound(v, filename, role);
    StringKeys(v, filename, role);
    KeysSpell(i);
    forall j | 0 <= j < i ensures !Spells(strings[j].0, KEYS[i]) { KeysDiffer(i, j); }
    FindText(strings, i, KEYS[i]);
    TextRecovered(strings[i].1);
  }

  lemma SaysText(block: Block, key: string, text: string)
    requires StringAt(block, key) == Some(AsUnits(text)) && Narrow(text)
    ensures Says(block, key, text)
  {
    UnitsSpell(text);
  }

  lemma SaysDotted(block: Block, key: string, v: Version)
    requires StringAt(block, key) == Some(VersionText(v))
    ensures SaysVersion(block, key, v)
  {
    VersionTextIsDotted(v);
  }

  /** The texts, one by one. */
  lemma TextsAre(v: Version, filename: seq<Unit>, role: string)
    ensures var strings := Strings(v, filename, role);
            |strings| == 9 && strings[0].1 == AsUnits("Ghost FTP") && strings[1].1 == AsUnits(Description(role).0) &&
            strings[2].1 == VersionText(v) && strings[3].1 == AsUnits(Description(role).1) &&
            strings[4].1 == AsUnits("Copyright \U{A9} 2026 Ghost FTP") && strings[5].1 == filename &&
            strings[6].1 == AsUnits("Ghost FTP") && strings[7].1 == VersionText(v) &&
            strings[8].1 ==
            AsUnits("Secure FTP, FTPS and SFTP client \U{2014} " + "Ghost FTP \U{2014} github.com/bren-wp/Host-FTP")
  {
  }

  lemma NarrowBoth(a: string, b: string)
    requires Narrow(a) && Narrow(b)
    ensures Narrow(a + b)
  {
  }

  lemma LongTextIsNarrow()
    ensures Narrow("Secure FTP, FTPS and SFTP client \U{2014} " + "Ghost FTP \U{2014} github.com/bren-wp/Host-FTP")
  {
    assert Narrow("Secure FTP, FTPS and SFTP client \U{2014} ");
    assert Narrow("Ghost FTP \U{2014} github.com/bren-wp/Host-FTP");
    NarrowBoth("Secure FTP, FTPS and SFTP client \U{2014} ", "Ghost FTP \U{2014} github.com/bren-wp/Host-FTP");
  }

  /** The table holds these texts under its keys. */
  ghost predicate Holds(block: Block, strings: seq<(seq<Unit>, seq<Unit>)>)
  {
    |strings| == 9 && forall i: nat :: i < 9 ==> StringAt(block, KEYS[i]) == Some(strings[i].1)
  }

  lemma ProductNames(block: Block, strings: seq<(seq<Unit>, seq<Unit>)>)
    requires Holds(block, strings) && strings[0].1 == AsUnits("Ghost FTP") && strings[6].1 == AsUnits("Ghost FTP")
    ensures Says(block, "CompanyName", "Ghost FTP") && Says(block, "ProductName", "Ghost FTP")
  {
    SaysText(block, KEYS[0], "Ghost FTP");
    SaysText(block, KEYS[6], "Ghost FTP");
  }

  lemma ProductTexts(block: Block, strings: seq<(seq<Unit>, seq<Unit>)>)
    requires Holds(block, strings) && strings[0].1 == AsUnits("Ghost FTP") && strings[6].1 == AsUnits("Ghost FTP")
    requires strings[4].1 == AsUnits("Copyright \U{A9} 2026 Ghost FTP")
    requires strings[8].1 ==
             AsUnits("Secure FTP, FTPS and SFTP client \U{2014} " + "Ghost FTP \U{2014} github.com/bren-wp/Host-FTP")
    ensures ProductSays(block)
  {
    ProductNames(block, strings);
    SaysText(block, KEYS[4], "Copyright \U{A9} 2026 Ghost FTP");
    LongTextIsNarrow();
    SaysText(block, KEYS[8],
             "Secure FTP, FTPS and SFTP client \U{2014} " + "Ghost FTP \U{2014} github.com/bren-wp/Host-FTP");
  }

  lemma DescriptionIsNarrow(role: string)
    ensures Narrow(Description(role).0) && Narrow(Description(role).1)
  {
  }

  lemma RoleTexts(block: Block, strings: seq<(seq<Unit>, seq<Unit>)>, role: string)
    requires Holds(block, strings) && strings[1].1 == AsUnits(Description(role).0)
    requires strings[3].1 == AsUnits(Description(role).1)
    ensures RoleSays(block, role)
  {
    DescriptionIsNarrow(role);
    SaysText(block, KEYS[1], Description(role).0);
    SaysText(block, KEYS[3], Description(role).1);
  }

  lemma VersionTreeStrings(v: Version, filename: seq<Unit>, role: string)
    requires ValidVersion(v)
    ensures StringsSay(Meaning(VersionTree(v, filename, role)), v, filename, role)
  {
    var block, strings := Meaning(VersionTree(v, filename, role)), Strings(v, filename, role);
    forall i: nat | i < 9 ensures |strings| == 9 && StringAt(block, KEYS[i]) == Some(strings[i].1) {
      StringFound(v, filename, role, i);
    }
    TextsAre(v, filename, role);
    TextsSay(block, strings, v, filename, role);
  }

  lemma TextsSay(block: Block, strings: seq<(seq<Unit>, seq<Unit>)>, v: Version, filename: seq<Unit>, role: string)
    requires Holds(block, strings) && strings == Strings(v, filename, role)
    ensures StringsSay(block, v, filename, role)
  {
    TextsAre(v, filename, role);
    ProductTexts(block, strings);
    RoleTexts(block, strings, role);
    SaysDotted(block, KEYS[2], v);
    SaysDotted(block, KEYS[7], v);
    assert StringAt(block, KEYS[5]) == Some(filename);
  }

  /** What the version resource tells a reader about the program. */
  lemma VersionTreeSays(v: Version, filename: seq<Unit>, role: string)
    requires ValidVersion(v)
    ensures VersionSays(Meaning(VersionTree(v, filename, role)), v, filename, role)
  {
    UnitsSpell("VS_VERSION_INFO");
    FixedReads(v);
    VersionTreeStrings(v, filename, role);
    TranslationFound(v, filename, role);
  }
}
