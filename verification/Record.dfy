/** The on-disk record: a 28-byte little-endian header, a table of tag references, the value. */
module Record {
  import opened Core

  const RECORD_VERSION: byte := 1
  const HEADER_LEN: nat := 28
  const TAG_REF_LEN: nat := 12
  const EXPIRES_AT_OFFSET: nat := 12
  const CAS_OFFSET: nat := 20
  const ABSOLUTE_MAX_TAGS: nat := 255

  datatype TagRef = TagRef(id: u32, generation: u64)
  datatype Meta = Meta(epoch: u32, flags: u32, expiresAt: u64, cas: u64)
  datatype View = View(reserved: bytes, meta: Meta, tags: seq<TagRef>, value: bytes)
  datatype Error = ShorterThanHeader | Version(found: byte) | TagTableTooLong | TooManyTags

  function Pow256(w: nat): (r: nat)
    ensures r > 0
  {
    if w == 0 then 1 else 256 * Pow256(w - 1)
  }

  function Le(n: nat, width: nat): (s: bytes)
    ensures |s| == width
  {
    if width == 0 then [] else [n % 256] + Le(n / 256, width - 1)
  }

  function FromLe(s: bytes): (n: nat)
    ensures n < Pow256(|s|)
  {
    if s == [] then 0 else s[0] + 256 * FromLe(s[1..])
  }

  lemma Widths()
    ensures Pow256(4) == U32_MAX + 1 && Pow256(8) == U64_MAX + 1
  {
    assert Pow256(4) == 256 * (256 * (256 * (256 * Pow256(0))));
    assert Pow256(8) == 256 * (256 * (256 * (256 * Pow256(4))));
  }

  lemma {:induction false} LeInverts(n: nat, width: nat)
    requires n < Pow256(width)
    ensures FromLe(Le(n, width)) == n
  {
    if width > 0 {
      assert n / 256 < Pow256(width - 1);
      LeInverts(n / 256, width - 1);
      assert Le(n, width)[1..] == Le(n / 256, width - 1);
    }
  }

  lemma {:induction false} FromLeInverts(s: bytes)
    ensures Le(FromLe(s), |s|) == s
  {
    if s != [] {
      FromLeInverts(s[1..]);
      assert FromLe(s) % 256 == s[0] && FromLe(s) / 256 == FromLe(s[1..]);
    }
  }

  function Read(buf: bytes, offset: nat, width: nat): nat
    requires offset + width <= |buf|
  {
    FromLe(buf[offset..offset + width])
  }

  function ReadU32(buf: bytes, offset: nat): u32
    requires offset + 4 <= |buf|
  {
    Widths();
    Read(buf, offset, 4)
  }

  function ReadU64(buf: bytes, offset: nat): u64
    requires offset + 8 <= |buf|
  {
    Widths();
    Read(buf, offset, 8)
  }

  function TagBytes(tags: seq<TagRef>): (s: bytes)
    ensures |s| == TAG_REF_LEN * |tags|
  {
    if tags == [] then []
    else Le(tags[0].id, 4) + Le(tags[0].generation, 8) + TagBytes(tags[1..])
  }

  function ParseTags(buf: bytes, count: nat): (tags: seq<TagRef>)
    requires |buf| == TAG_REF_LEN * count
    ensures |tags| == count
  {
    if count == 0 then []
    else [TagRef(ReadU32(buf, 0), ReadU64(buf, 4))] + ParseTags(buf[TAG_REF_LEN..], count - 1)
  }

  /** The header a write stores; the two reserved bytes are zero. */
  function HeaderBytes(meta: Meta, tagCount: byte): (s: bytes)
    ensures |s| == HEADER_LEN
  {
    [RECORD_VERSION, tagCount, 0, 0]
    + Le(meta.epoch, 4) + Le(meta.flags, 4) + Le(meta.expiresAt, 8) + Le(meta.cas, 8)
  }

  function Encode(meta: Meta, tags: seq<TagRef>, value: bytes): Result<bytes, Error> {
    if |tags| > ABSOLUTE_MAX_TAGS then Err(TooManyTags)
    else Ok(HeaderBytes(meta, |tags|) + TagBytes(tags) + value)
  }

  function Parse(buf: bytes): Result<View, Error> {
    if |buf| < HEADER_LEN then Err(ShorterThanHeader)
    else if buf[0] != RECORD_VERSION then Err(Version(buf[0]))
    else
      var end := HEADER_LEN + TAG_REF_LEN * buf[1];
      if |buf| < end then Err(TagTableTooLong)
      else
        Ok(View(buf[2..4],
                Meta(ReadU32(buf, 4), ReadU32(buf, 8), ReadU64(buf, EXPIRES_AT_OFFSET), ReadU64(buf, CAS_OFFSET)),
                ParseTags(buf[HEADER_LEN..end], buf[1]),
                buf[end..]))
  }

  lemma {:induction false} TagsInvert(tags: seq<TagRef>)
    ensures ParseTags(TagBytes(tags), |tags|) == tags
  {
    if tags != [] {
      var id, generation := Le(tags[0].id, 4), Le(tags[0].generation, 8);
      var buf := TagBytes(tags);
      Widths();
      LeInverts(tags[0].id, 4);
      LeInverts(tags[0].generation, 8);
      assert buf[0..4] == id && buf[4..12] == generation && buf[12..] == TagBytes(tags[1..]);
      TagsInvert(tags[1..]);
    }
  }

  lemma {:induction false} TagBytesInvert(buf: bytes, count: nat)
    requires |buf| == TAG_REF_LEN * count
    ensures TagBytes(ParseTags(buf, count)) == buf
  {
    if count > 0 {
      TagBytesInvert(buf[TAG_REF_LEN..], count - 1);
      FromLeInverts(buf[0..4]);
      FromLeInverts(buf[4..12]);
      var tags := ParseTags(buf, count);
      assert tags[1..] == ParseTags(buf[TAG_REF_LEN..], count - 1);
      assert buf == buf[0..4] + buf[4..12] + buf[12..];
    }
  }

  lemma HeaderFields(meta: Meta, tagCount: byte)
    ensures
      var h := HeaderBytes(meta, tagCount);
      && h[0] == RECORD_VERSION && h[1] == tagCount && h[2..4] == [0, 0]
      && h[4..8] == Le(meta.epoch, 4) && h[8..12] == Le(meta.flags, 4)
      && h[12..20] == Le(meta.expiresAt, 8) && h[20..28] == Le(meta.cas, 8)
  {
  }

  // -- The bytes -----------------------------------------------------------------------------

  /** The field is `width` bytes at `at`, least significant first. */
  predicate LittleEndian(buf: bytes, at: nat, width: nat, n: nat) {
    at + width <= |buf| && forall i :: 0 <= i < width ==> buf[at + i] == (n / Pow256(i)) % 256
  }

  lemma {:induction false} LeDigit(n: nat, width: nat, i: nat)
    requires i < width
    ensures Le(n, width)[i] == (n / Pow256(i)) % 256
  {
    if i > 0 {
      LeDigit(n / 256, width - 1, i - 1);
      DivideTwice(n, Pow256(i - 1));
    }
  }

  lemma DivideTwice(n: nat, d: nat)
    requires d > 0
    ensures n / 256 / d == n / (256 * d)
  {
    var q, r := n / 256, n % 256;
    var p, t := q / d, q % d;
    assert n == 256 * (p * d + t) + r == p * (256 * d) + (256 * t + r);
    Quotient(n, 256 * d, p, 256 * t + r);
  }

  lemma Quotient(n: nat, d: nat, q: nat, r: nat)
    requires n == q * d + r && r < d
    ensures n / d == q
  {
    var k := n / d - q;
    assert k * d == r - n % d;
  }

  lemma LeField(buf: bytes, at: nat, width: nat, n: nat)
    requires at + width <= |buf| && buf[at..at + width] == Le(n, width)
    ensures LittleEndian(buf, at, width, n)
  {
    forall i | 0 <= i < width ensures buf[at + i] == (n / Pow256(i)) % 256 {
      LeDigit(n, width, i);
      assert buf[at + i] == buf[at..at + width][i];
    }
  }

  lemma SliceBehind(front: bytes, rest: bytes, i: nat, j: nat)
    requires |front| <= i <= j <= |front| + |rest|
    ensures (front + rest)[i..j] == rest[i - |front|..j - |front|]
  {
  }

  lemma {:induction false} TagAt(tags: seq<TagRef>, j: nat)
    requires j < |tags|
    ensures
      var at := 12 * j;
      TagBytes(tags)[at..at + 4] == Le(tags[j].id, 4) && TagBytes(tags)[at + 4..at + 12] == Le(tags[j].generation, 8)
  {
    hide Le;
    var front, rest := Le(tags[0].id, 4) + Le(tags[0].generation, 8), TagBytes(tags[1..]);
    assert TagBytes(tags) == front + rest;
    if j > 0 {
      TagAt(tags[1..], j - 1);
      SliceBehind(front, rest, 12 * j, 12 * j + 4);
      SliceBehind(front, rest, 12 * j + 4, 12 * j + 12);
    }
  }

  /** Every byte of an encoded record: version 1, the number of tags, two zeros, then epoch, flags,
      deadline and token at 4, 8, 12 and 20, the tags from 28 on at twelve bytes each, and the value
      behind them, all of it least significant byte first. */
  lemma EncodedLayout(meta: Meta, tags: seq<TagRef>, value: bytes, j: nat)
    requires |tags| <= 255
    ensures Encode(meta, tags, value).Ok?
    ensures
      var buf := Encode(meta, tags, value).value;
      && |buf| == 28 + 12 * |tags| + |value|
      && buf[0] == 1 && buf[1] == |tags| && buf[2] == 0 && buf[3] == 0
      && LittleEndian(buf, 4, 4, meta.epoch) && LittleEndian(buf, 8, 4, meta.flags)
      && LittleEndian(buf, 12, 8, meta.expiresAt) && LittleEndian(buf, 20, 8, meta.cas)
      && (j < |tags| ==>
            LittleEndian(buf, 28 + 12 * j, 4, tags[j].id) && LittleEndian(buf, 32 + 12 * j, 8, tags[j].generation))
      && buf[28 + 12 * |tags|..] == value
  {
    hide LittleEndian, Le, TagBytes;
    var h, t := HeaderBytes(meta, |tags|), TagBytes(tags);
    var buf := h + t + value;
    HeaderFields(meta, |tags|);
    Slices(h, t, value);
    assert buf[4..8] == h[4..8] && buf[8..12] == h[8..12] && buf[12..20] == h[12..20] && buf[20..28] == h[20..28];
    LeField(buf, 4, 4, meta.epoch);
    LeField(buf, 8, 4, meta.flags);
    LeField(buf, 12, 8, meta.expiresAt);
    LeField(buf, 20, 8, meta.cas);
    if j < |tags| {
      var at := 12 * j;
      TagAt(tags, j);
      assert buf[28 + at..32 + at] == t[at..at + 4] && buf[32 + at..40 + at] == t[at + 4..at + 12];
      LeField(buf, 28 + at, 4, tags[j].id);
      LeField(buf, 32 + at, 8, tags[j].generation);
    }
  }

  /** A buffer fails to parse exactly when it is shorter than a header, of another version, or
      shorter than the tags it announces. */
  lemma ParseRefuses(buf: bytes)
    ensures Parse(buf) == Err(ShorterThanHeader) <==> |buf| < 28
    ensures forall v :: Parse(buf) == Err(Version(v)) <==> |buf| >= 28 && buf[0] == v && v != 1
    ensures Parse(buf) == Err(TagTableTooLong) <==> |buf| >= 28 && buf[0] == 1 && |buf| < 28 + 12 * buf[1] as int
    ensures Parse(buf) != Err(TooManyTags)
  {
  }

  /** Reading back what was written, for every record the format can hold. */
  lemma ParseInvertsEncode(meta: Meta, tags: seq<TagRef>, value: bytes)
    ensures Encode(meta, tags, value).Err? <==> |tags| > ABSOLUTE_MAX_TAGS
    ensures Encode(meta, tags, value).Ok? ==>
      Parse(Encode(meta, tags, value).value) == Ok(View([0, 0], meta, tags, value))
  {
    if |tags| <= ABSOLUTE_MAX_TAGS {
      var h, t := HeaderBytes(meta, |tags|), TagBytes(tags);
      var buf := h + t + value;
      HeaderFields(meta, |tags|);
      Slices(h, t, value);
      TagsInvert(tags);
      Widths();
      LeInverts(meta.epoch, 4);
      LeInverts(meta.flags, 4);
      LeInverts(meta.expiresAt, 8);
      LeInverts(meta.cas, 8);
    }
  }

  lemma Slices(h: bytes, t: bytes, v: bytes)
    requires |h| == HEADER_LEN
    ensures forall i, j :: 0 <= i <= j <= HEADER_LEN ==> (h + t + v)[i..j] == h[i..j]
    ensures (h + t + v)[HEADER_LEN..HEADER_LEN + |t|] == t
    ensures (h + t + v)[HEADER_LEN + |t|..] == v
  {
  }

  /** The buffer with its two reserved bytes cleared. */
  function Normal(buf: bytes): bytes
    requires |buf| >= 4
  {
    buf[..2] + [0, 0] + buf[4..]
  }

  /** Every buffer that parses is spanned by its header, tags and value, and re-encodes to itself
      up to the reserved bytes. */
  lemma EncodeInvertsParse(buf: bytes)
    requires Parse(buf).Ok?
    ensures
      var r := Parse(buf).value;
      && |buf| == HEADER_LEN + TAG_REF_LEN * |r.tags| + |r.value|
      && Encode(r.meta, r.tags, r.value) == Ok(Normal(buf))
  {
    var r := Parse(buf).value;
    var end := HEADER_LEN + TAG_REF_LEN * buf[1];
    TagBytesInvert(buf[HEADER_LEN..end], buf[1]);
    HeaderReencodes(buf);
    assert Normal(buf) == Normal(buf)[..HEADER_LEN] + buf[HEADER_LEN..end] + buf[end..];
  }

  lemma HeaderReencodes(buf: bytes)
    requires Parse(buf).Ok?
    ensures HeaderBytes(Parse(buf).value.meta, buf[1]) == Normal(buf)[..HEADER_LEN]
  {
    hide ParseTags;
    FromLeInverts(buf[4..8]);
    FromLeInverts(buf[8..12]);
    FromLeInverts(buf[12..20]);
    FromLeInverts(buf[20..28]);
    HeaderSplits(buf);
  }

  lemma HeaderSplits(buf: bytes)
    requires |buf| >= HEADER_LEN
    ensures Normal(buf)[..HEADER_LEN]
            == [buf[0], buf[1], 0, 0] + buf[4..8] + buf[8..12] + buf[12..20] + buf[20..28]
  {
  }

  /** Eight bytes overwritten at an offset, or nothing when the buffer is too short. */
  function Patched(buf: bytes, offset: nat, value: u64): bytes {
    if |buf| < offset + 8 then buf else buf[..offset] + Le(value, 8) + buf[offset + 8..]
  }

  method PatchU64(record: array<byte>, offset: nat, value: u64) returns (r: Result<(), Error>)
    modifies record
    ensures r.Err? <==> record.Length < offset + 8
    ensures record[..] == Patched(old(record[..]), offset, value)
  {
    if record.Length < offset + 8 {
      return Err(ShorterThanHeader);
    }
    hide Le;
    var encoded := Le(value, 8);
    for i := 0 to 8
      invariant forall k :: 0 <= k < record.Length ==>
        record[k] == if offset <= k < offset + i then encoded[k - offset] else old(record[k])
    {
      record[offset + i] := encoded[i];
    }
    r := Ok(());
  }

  method PatchCas(record: array<byte>, cas: u64) returns (r: Result<(), Error>)
    modifies record
    ensures r.Err? <==> record.Length < HEADER_LEN
    ensures record[..] == Patched(old(record[..]), CAS_OFFSET, cas)
  {
    r := PatchU64(record, CAS_OFFSET, cas);
  }

  method PatchExpiry(record: array<byte>, expiresAt: u64) returns (r: Result<(), Error>)
    modifies record
    ensures r.Err? <==> record.Length < CAS_OFFSET
    ensures record[..] == Patched(old(record[..]), EXPIRES_AT_OFFSET, expiresAt)
  {
    r := PatchU64(record, EXPIRES_AT_OFFSET, expiresAt);
  }

  /** Patching an encoded record is encoding it with that one field changed. */
  lemma PatchIsReencode(meta: Meta, tags: seq<TagRef>, value: bytes, v: u64)
    requires |tags| <= ABSOLUTE_MAX_TAGS
    ensures
      var buf := Encode(meta, tags, value).value;
      && Ok(Patched(buf, CAS_OFFSET, v)) == Encode(meta.(cas := v), tags, value)
      && Ok(Patched(buf, EXPIRES_AT_OFFSET, v)) == Encode(meta.(expiresAt := v), tags, value)
  {
    var rest := TagBytes(tags) + value;
    var buf := HeaderBytes(meta, |tags|) + TagBytes(tags) + value;
    assert buf == HeaderBytes(meta, |tags|) + rest;
    assert Patched(buf, CAS_OFFSET, v) == HeaderBytes(meta.(cas := v), |tags|) + rest;
    assert Patched(buf, EXPIRES_AT_OFFSET, v) == HeaderBytes(meta.(expiresAt := v), |tags|) + rest;
    assert forall m: Meta :: HeaderBytes(m, |tags|) + TagBytes(tags) + value == HeaderBytes(m, |tags|) + rest;
  }

  /** The two patches touch disjoint bytes, so they commute on every buffer. */
  lemma PatchesCommute(buf: bytes, cas: u64, expiresAt: u64)
    ensures Patched(Patched(buf, CAS_OFFSET, cas), EXPIRES_AT_OFFSET, expiresAt)
         == Patched(Patched(buf, EXPIRES_AT_OFFSET, expiresAt), CAS_OFFSET, cas)
  {
  }
}
