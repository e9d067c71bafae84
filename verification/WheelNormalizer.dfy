/** The wheel build hook: the reader of a ZIP central directory and the in-place patch
    that makes entry permissions reproducible. The format is that of PKWARE APPNOTE.TXT,
    sections 4.3.12 (central directory header), 4.3.16 (end record), 4.4.2 and 4.4.15. */
module WheelNormalizer {
  import opened Common

  type byte = x: int | 0 <= x < 256
  type Bytes = seq<byte>

  datatype Entry = Entry(offset: nat, name: Bytes)

  datatype FormatError =
    | NoEndRecord
    | TruncatedEndRecord
    | MultiDisk
    | Zip64
    | TrailingData
    | InvalidDirectory
    | InvalidEntry
    | TruncatedEntry
    | CountMismatch

  const END_SIZE := 22
  const HEADER_SIZE := 46

  function U16(a: Bytes, i: nat): nat
    requires i + 2 <= |a|
  {
    (a[i] as int) + 256 * (a[i + 1] as int)
  }

  function U32(a: Bytes, i: nat): nat
    requires i + 4 <= |a|
  {
    U16(a, i) + 0x10000 * U16(a, i + 2)
  }

  predicate EndSignature(a: Bytes, i: int) {
    0 <= i && i + 4 <= |a| && a[i] == 0x50 && a[i + 1] == 0x4B && a[i + 2] == 5 && a[i + 3] == 6
  }

  predicate HeaderSignature(a: Bytes, i: int) {
    0 <= i && i + 4 <= |a| && a[i] == 0x50 && a[i + 1] == 0x4B && a[i + 2] == 1 && a[i + 3] == 2
  }

  /** `archive.rfind(...)` restricted to positions below `limit`; -1 when there is none. */
  function LastEnd(a: Bytes, limit: nat): (r: int)
    requires limit <= |a|
    ensures -1 <= r < limit
    ensures r >= 0 ==> EndSignature(a, r)
    ensures forall k :: r < k < limit ==> !EndSignature(a, k)
  {
    if limit == 0 then -1 else if EndSignature(a, limit - 1) then limit - 1 else LastEnd(a, limit - 1)
  }

  function EntryEnd(a: Bytes, i: nat): nat
    requires i + HEADER_SIZE <= |a|
  {
    i + HEADER_SIZE + U16(a, i + 28) + U16(a, i + 30) + U16(a, i + 32)
  }

  /** One header at `i` whose record ends by `end`, with a name. */
  predicate HeaderOk(a: Bytes, i: nat, end: nat)
    requires end <= |a|
  {
    i + HEADER_SIZE <= end && HeaderSignature(a, i) && U16(a, i + 28) > 0 && EntryEnd(a, i) <= end
  }

  function EntryAt(a: Bytes, i: nat): Entry
    requires i + HEADER_SIZE <= |a| && EntryEnd(a, i) <= |a|
  {
    Entry(i, a[i + HEADER_SIZE..i + HEADER_SIZE + U16(a, i + 28)])
  }

  /** The loop over the directory, from `cursor` up to `end`. */
  function ParseFrom(a: Bytes, cursor: nat, end: nat): Result<seq<Entry>, FormatError>
    requires cursor <= end <= |a|
    decreases end - cursor
  {
    if cursor == end then Ok([])
    else if cursor + HEADER_SIZE > end || !HeaderSignature(a, cursor) then Err(InvalidEntry)
    else if U16(a, cursor + 28) == 0 || EntryEnd(a, cursor) > end then Err(TruncatedEntry)
    else
      Prepend([EntryAt(a, cursor)], ParseFrom(a, EntryEnd(a, cursor), end))
  }

  function Prepend(es: seq<Entry>, rest: Result<seq<Entry>, FormatError>): Result<seq<Entry>, FormatError> {
    if rest.Err? then rest else Ok(es + rest.value)
  }

  /** The checks on the end record; the result is its offset, the directory start and the declared count. */
  function EndRecord(a: Bytes): (r: Result<(nat, nat, nat), FormatError>)
    ensures r.Ok? ==> r.value.1 <= r.value.0 && r.value.0 + END_SIZE <= |a|
  {
    var end := LastEnd(a, |a|);
    if end < 0 then Err(NoEndRecord)
    else if end + END_SIZE > |a| then Err(TruncatedEndRecord)
    else if U16(a, end + 4) != 0 || U16(a, end + 6) != 0 || U16(a, end + 8) != U16(a, end + 10) then Err(MultiDisk)
    else if U16(a, end + 10) == 0xFFFF || U32(a, end + 12) == 0xFFFF_FFFF || U32(a, end + 16) == 0xFFFF_FFFF then Err(Zip64)
    else if end + END_SIZE + U16(a, end + 20) != |a| then Err(TrailingData)
    else if U32(a, end + 16) + U32(a, end + 12) != end then Err(InvalidDirectory)
    else Ok((end, U32(a, end + 16), U16(a, end + 10)))
  }

  /** `_central_directory_entries` */
  function Entries(a: Bytes): Result<seq<Entry>, FormatError> {
    var record := EndRecord(a);
    if record.Err? then Err(record.error)
    else
      var (end, start, count) := record.value;
      var entries := ParseFrom(a, start, end);
      if entries.Ok? && |entries.value| != count then Err(CountMismatch) else entries
  }

  method CentralDirectoryEntries(archive: array<byte>) returns (r: Result<seq<Entry>, FormatError>)
    ensures r == Entries(archive[..])
  {
    ghost var a: Bytes := archive[..];
    var record := EndRecord(archive[..]);
    if record.Err? {
      return Err(record.error);
    }
    var (end, start, count) := record.value;
    var entries: seq<Entry> := [];
    var cursor := start;
    assert ParseFrom(a, start, end) == Prepend([], ParseFrom(a, start, end)) by {
      if ParseFrom(a, start, end).Ok? {
        assert [] + ParseFrom(a, start, end).value == ParseFrom(a, start, end).value;
      }
    }
    while cursor < end
      invariant start <= cursor <= end
      invariant ParseFrom(a, start, end) == Prepend(entries, ParseFrom(a, cursor, end))
      decreases end - cursor
    {
      if cursor + HEADER_SIZE > end || !HeaderSignature(archive[..], cursor) {
        return Err(InvalidEntry);
      }
      var entryEnd := EntryEnd(archive[..], cursor);
      if U16(archive[..], cursor + 28) == 0 || entryEnd > end {
        return Err(TruncatedEntry);
      }
      ghost var tail := ParseFrom(a, entryEnd, end);
      ghost var before := entries;
      entries := entries + [EntryAt(archive[..], cursor)];
      if tail.Ok? {
        assert before + ([EntryAt(a, cursor)] + tail.value) == entries + tail.value;
      }
      cursor := entryEnd;
    }
    assert entries + [] == entries;
    if |entries| != count {
      return Err(CountMismatch);
    }
    return Ok(entries);
  }

  // ---------------------------------------------------------------- the patch

  predicate IsDirectory(e: Entry) {
    |e.name| > 0 && e.name[|e.name| - 1] == 0x2F
  }

  /** `(mode << 16) | flags`: regular file 0o100644, or directory 0o040755 with the DOS directory bit. */
  function Attributes(e: Entry): nat {
    if IsDirectory(e) then 0x41ED * 0x10000 + 0x10 else 0x81A4 * 0x10000
  }

  function LittleEndian(n: nat, j: nat): byte {
    if j == 0 then n % 256 else LittleEndian(n / 256, j - 1)
  }

  /** The bytes of a header that normalisation writes. */
  predicate PatchedOffset(d: int) {
    d == 5 || 38 <= d < 42
  }

  function PatchByte(e: Entry, d: int): byte
    requires PatchedOffset(d)
  {
    if d == 5 then 3 else LittleEndian(Attributes(e), d - 38)
  }

  /** Little-endian, the attributes are 00 00 A4 81 for a file and 10 00 ED 41 for a directory. */
  lemma AttributeBytes(e: Entry)
    ensures PatchByte(e, 5) == 3
    ensures PatchByte(e, 38) == (if IsDirectory(e) then 0x10 else 0) && PatchByte(e, 39) == 0
    ensures PatchByte(e, 40) == (if IsDirectory(e) then 0xED else 0xA4)
    ensures PatchByte(e, 41) == (if IsDirectory(e) then 0x41 else 0x81)
  {
    var n := Attributes(e);
    assert LittleEndian(n, 1) == LittleEndian(n / 256, 0);
    assert LittleEndian(n, 2) == LittleEndian(n / 256, 1) == LittleEndian(n / 256 / 256, 0);
    assert LittleEndian(n, 3) == LittleEndian(n / 256, 2) == LittleEndian(n / 256 / 256, 1) == LittleEndian(n / 256 / 256 / 256, 0);
  }

  function Patch(a: Bytes, e: Entry): (b: Bytes)
    requires e.offset + HEADER_SIZE <= |a|
    ensures |b| == |a|
  {
    a[e.offset + 5 := PatchByte(e, 5)]
     [e.offset + 38 := PatchByte(e, 38)]
     [e.offset + 39 := PatchByte(e, 39)]
     [e.offset + 40 := PatchByte(e, 40)]
     [e.offset + 41 := PatchByte(e, 41)]
  }

  ghost predicate Spaced(es: seq<Entry>, limit: nat) {
    && (forall i :: 0 <= i < |es| ==> es[i].offset + HEADER_SIZE <= limit)
    && (forall i, j :: 0 <= i < j < |es| ==> es[i].offset + HEADER_SIZE <= es[j].offset)
  }

  function PatchAll(a: Bytes, es: seq<Entry>): (b: Bytes)
    requires Spaced(es, |a|)
    ensures |b| == |a|
  {
    if es == [] then a else Patch(PatchAll(a, es[..|es| - 1]), es[|es| - 1])
  }

  /** Position `k` lies in the patched bytes of some entry. */
  ghost predicate Patched(es: seq<Entry>, k: int) {
    exists i :: 0 <= i < |es| && PatchedOffset(k - es[i].offset)
  }

  /** `normalize_wheel_permissions`, on the archive's bytes. */
  function Normalized(a: Bytes): Result<Bytes, FormatError> {
    var es := Entries(a);
    if es.Err? then Err(es.error)
    else
      EntriesAreSpaced(a);
      Ok(PatchAll(a, es.value))
  }

  method NormalizeWheelPermissions(archive: array<byte>) returns (r: Result<(), FormatError>)
    modifies archive
    ensures var spec := Normalized(old(archive[..]));
            && r.Ok? == spec.Ok?
            && (spec.Err? ==> r == Err(spec.error) && archive[..] == old(archive[..]))
            && (spec.Ok? ==> archive[..] == spec.value)
  {
    ghost var a: Bytes := archive[..];
    var entries := CentralDirectoryEntries(archive);
    if entries.Err? {
      return Err(entries.error);
    }
    var es := entries.value;
    EntriesAreSpaced(a);
    for i := 0 to |es|
      invariant archive[..] == PatchAll(a, es[..i])
    {
      PatchInPlace(archive, es[i]);
      assert es[..i + 1][..i] == es[..i];
    }
    assert es[..|es|] == es;
    return Ok(());
  }

  method PatchInPlace(archive: array<byte>, e: Entry)
    requires e.offset + HEADER_SIZE <= archive.Length
    modifies archive
    ensures archive[..] == Patch(old(archive[..]), e)
  {
    hide LittleEndian, Attributes, Patch;
    ghost var before: Bytes := archive[..];
    archive[e.offset + 5] := 3;
    var attributes := Attributes(e);
    var j := 0;
    while j < 4
      invariant 0 <= j <= 4
      invariant forall k :: 0 <= k < archive.Length ==>
                  archive[k] == if k == e.offset + 5 then 3
                                else if e.offset + 38 <= k < e.offset + 38 + j then LittleEndian(attributes, k - e.offset - 38)
                                else before[k]
    {
      archive[e.offset + 38 + j] := LittleEndian(attributes, j);
      j := j + 1;
    }
    forall k | 0 <= k < archive.Length
      ensures archive[k] == Patch(before, e)[k]
    {
      PatchAt(before, e, k);
    }
  }

  // ------------------------------------------------------------- the directory

  function NextOffset(es: seq<Entry>, i: nat, end: nat): nat {
    if i + 1 < |es| then es[i + 1].offset else end
  }

  ghost predicate TileAt(a: Bytes, es: seq<Entry>, end: nat, i: int)
    requires end <= |a| && 0 <= i < |es|
  {
    && HeaderOk(a, es[i].offset, end)
    && es[i] == EntryAt(a, es[i].offset)
    && EntryEnd(a, es[i].offset) == NextOffset(es, i, end)
  }

  /** The entries start where the directory starts, each ends where the next begins, the last one
      at `end`, and each is a well-formed header with its name. */
  ghost predicate Tile(a: Bytes, es: seq<Entry>, start: nat, end: nat)
    requires end <= |a|
  {
    && start == NextOffset([Entry(0, [])] + es, 0, end)
    && forall i :: 0 <= i < |es| ==> TileAt(a, es, end, i)
  }

  lemma {:induction false} ParsingTiles(a: Bytes, start: nat, end: nat, es: seq<Entry>)
    requires start <= end <= |a|
    requires ParseFrom(a, start, end) == Ok(es)
    ensures Tile(a, es, start, end)
    decreases end - start
  {
    if start < end {
      var rest := es[1..];
      ParsingTiles(a, EntryEnd(a, start), end, rest);
      assert EntryEnd(a, start) == NextOffset(es, 0, end);
      assert TileAt(a, es, end, 0);
      forall i | 0 < i < |es|
        ensures TileAt(a, es, end, i)
      {
        assert TileAt(a, rest, end, i - 1);
      }
    }
  }

  lemma {:induction false} TilingParses(a: Bytes, start: nat, end: nat, es: seq<Entry>)
    requires start <= end <= |a| && Tile(a, es, start, end)
    ensures ParseFrom(a, start, end) == Ok(es)
    decreases |es|
  {
    if es != [] {
      var rest := es[1..];
      assert TileAt(a, es, end, 0);
      forall i | 0 <= i < |rest|
        ensures TileAt(a, rest, end, i)
      {
        assert TileAt(a, es, end, i + 1);
      }
      TilingParses(a, EntryEnd(a, start), end, rest);
      assert es == [EntryAt(a, start)] + rest;
    }
  }

  /** An archive is accepted with entries `es` exactly when its end record passes the checks and `es`
      tiles the directory up to the end record, with the declared number of entries. */
  lemma AcceptedExactlyWhenTiled(a: Bytes, es: seq<Entry>)
    ensures Entries(a) == Ok(es) <==>
              && EndRecord(a).Ok?
              && var (end, start, count) := EndRecord(a).value; Tile(a, es, start, end) && |es| == count
  {
    if EndRecord(a).Ok? {
      var (end, start, count) := EndRecord(a).value;
      if Entries(a) == Ok(es) {
        ParsingTiles(a, start, end, es);
      }
      if Tile(a, es, start, end) {
        TilingParses(a, start, end, es);
      }
    }
  }

  lemma TilesAreSpaced(a: Bytes, es: seq<Entry>, start: nat, end: nat)
    requires end <= |a| && Tile(a, es, start, end)
    ensures Spaced(es, end)
  {
    forall i | 0 <= i < |es|
      ensures es[i].offset + HEADER_SIZE <= end
    {
      assert TileAt(a, es, end, i);
    }
    forall i, j | 0 <= i < j < |es|
      ensures es[i].offset + HEADER_SIZE <= es[j].offset
    {
      TilesAdvance(a, es, start, end, i, j);
    }
  }

  lemma {:induction false} TilesAdvance(a: Bytes, es: seq<Entry>, start: nat, end: nat, i: nat, j: nat)
    requires end <= |a| && Tile(a, es, start, end) && i < j < |es|
    ensures HeaderOk(a, es[i].offset, end) && EntryEnd(a, es[i].offset) <= es[j].offset
    decreases j
  {
    assert TileAt(a, es, end, i);
    if i + 1 < j {
      TilesAdvance(a, es, start, end, i, j - 1);
      assert TileAt(a, es, end, j - 1);
    }
  }

  lemma EntriesAreSpaced(a: Bytes)
    requires Entries(a).Ok?
    ensures Spaced(Entries(a).value, EndRecord(a).value.0) && Spaced(Entries(a).value, |a|)
  {
    var (end, start, count) := EndRecord(a).value;
    ParsingTiles(a, start, end, Entries(a).value);
    TilesAreSpaced(a, Entries(a).value, start, end);
  }

  // ------------------------------------------------------------ main theorems

  lemma PatchAt(a: Bytes, e: Entry, k: nat)
    requires e.offset + HEADER_SIZE <= |a| && k < |a|
    ensures Patch(a, e)[k] == if PatchedOffset(k - e.offset) then PatchByte(e, k - e.offset) else a[k]
  {
    hide LittleEndian, Attributes;
  }

  lemma HeadersDoNotOverlap(o1: nat, o2: nat, k: nat)
    requires o1 + HEADER_SIZE <= o2 && PatchedOffset(k - o1)
    ensures !PatchedOffset(k - o2)
  {
  }

  lemma {:induction false} PatchAllAt(a: Bytes, es: seq<Entry>, k: nat)
    requires Spaced(es, |a|) && k < |a|
    ensures !Patched(es, k) ==> PatchAll(a, es)[k] == a[k]
    ensures forall i :: 0 <= i < |es| && PatchedOffset(k - es[i].offset) ==>
              PatchAll(a, es)[k] == PatchByte(es[i], k - es[i].offset)
  {
    hide Patch, PatchByte, PatchedOffset;
    if es != [] {
      var front, last := es[..|es| - 1], es[|es| - 1];
      PatchAllAt(a, front, k);
      var before := PatchAll(a, front);
      PatchAt(before, last, k);
      if !Patched(es, k) {
        assert !PatchedOffset(k - es[|es| - 1].offset);
        forall i | 0 <= i < |front|
          ensures !PatchedOffset(k - front[i].offset)
        {
          assert front[i] == es[i];
        }
      }
      forall i | 0 <= i < |es| && PatchedOffset(k - es[i].offset)
        ensures PatchAll(a, es)[k] == PatchByte(es[i], k - es[i].offset)
      {
        if i < |front| {
          assert front[i] == es[i];
          assert es[i].offset + HEADER_SIZE <= es[|es| - 1].offset;
          HeadersDoNotOverlap(es[i].offset, last.offset, k);
        }
      }
    }
  }

  /** Same length, and equal outside the patched bytes of `es`. */
  ghost predicate AgreeOutside(a: Bytes, b: Bytes, es: seq<Entry>) {
    && |a| == |b|
    && forall k :: 0 <= k < |a| && !Patched(es, k) ==> a[k] == b[k]
  }

  /** Bytes of entry `i`, other than the patched ones, are outside every patch. */
  lemma OwnBytes(a: Bytes, es: seq<Entry>, start: nat, end: nat, i: nat, d: nat)
    requires end <= |a| && Tile(a, es, start, end) && i < |es| && HeaderOk(a, es[i].offset, end)
    requires es[i].offset + d < EntryEnd(a, es[i].offset) && !PatchedOffset(d)
    ensures !Patched(es, es[i].offset + d) && es[i].offset + d < end
  {
    hide TileAt, EntryEnd;
    TilesAreSpaced(a, es, start, end);
    forall j | 0 <= j < |es|
      ensures !PatchedOffset(es[i].offset + d - es[j].offset)
    {
      if j < i {
        assert es[j].offset + HEADER_SIZE <= es[i].offset;
      } else if j > i {
        TilesAdvance(a, es, start, end, i, j);
      }
    }
  }

  ghost predicate SameAt(a: Bytes, b: Bytes, o: nat, d: nat) {
    o + d < |a| && o + d < |b| && a[o + d] == b[o + d]
  }

  lemma TileAtAgrees(a: Bytes, b: Bytes, es: seq<Entry>, start: nat, end: nat, i: nat)
    requires end <= |a| && Tile(a, es, start, end) && AgreeOutside(a, b, es) && i < |es|
    ensures TileAt(b, es, end, i)
  {
    var o := es[i].offset;
    assert TileAt(a, es, end, i);
    var n := EntryEnd(a, o) - o;
    forall d: nat | d < n && !PatchedOffset(d)
      ensures SameAt(a, b, o, d)
    {
      OwnBytes(a, es, start, end, i, d);
    }
    SameHeader(a, b, o);
  }

  /** A header reads the same when its bytes agree outside the patched ones. */
  lemma SameHeader(a: Bytes, b: Bytes, o: nat)
    requires |a| == |b| && o + HEADER_SIZE <= |a| && EntryEnd(a, o) <= |a|
    requires forall d: nat :: d < EntryEnd(a, o) - o && !PatchedOffset(d) ==> SameAt(a, b, o, d)
    ensures HeaderSignature(b, o) == HeaderSignature(a, o)
    ensures U16(b, o + 28) == U16(a, o + 28)
    ensures EntryEnd(b, o) == EntryEnd(a, o)
    ensures EntryAt(b, o) == EntryAt(a, o)
  {
    assert SameAt(a, b, o, 28) && SameAt(a, b, o, 29) && SameAt(a, b, o, 30);
    assert SameAt(a, b, o, 31) && SameAt(a, b, o, 32) && SameAt(a, b, o, 33);
    assert SameAt(a, b, o, 0) && SameAt(a, b, o, 1) && SameAt(a, b, o, 2) && SameAt(a, b, o, 3);
    var x, y := a[o + HEADER_SIZE..o + HEADER_SIZE + U16(a, o + 28)], b[o + HEADER_SIZE..o + HEADER_SIZE + U16(a, o + 28)];
    forall d | 0 <= d < |x|
      ensures x[d] == y[d]
    {
      assert SameAt(a, b, o, HEADER_SIZE + d);
    }
  }

  lemma TileAgrees(a: Bytes, b: Bytes, es: seq<Entry>, start: nat, end: nat)
    requires end <= |a| && Tile(a, es, start, end) && AgreeOutside(a, b, es)
    ensures Tile(b, es, start, end)
  {
    hide TileAt;
    forall i | 0 <= i < |es|
      ensures TileAt(b, es, end, i)
    {
      TileAtAgrees(a, b, es, start, end, i);
    }
  }

  lemma EndRecordAgrees(a: Bytes, b: Bytes, es: seq<Entry>)
    requires EndRecord(a).Ok? && Spaced(es, EndRecord(a).value.0) && AgreeOutside(a, b, es)
    ensures EndRecord(b) == EndRecord(a)
  {
    var end := EndRecord(a).value.0;
    forall k | end <= k < |a|
      ensures a[k] == b[k]
    {
      forall i | 0 <= i < |es|
        ensures !PatchedOffset(k - es[i].offset)
      {
        assert es[i].offset + HEADER_SIZE <= end;
      }
      assert !Patched(es, k);
    }
    forall k | end <= k < |a|
      ensures EndSignature(a, k) == EndSignature(b, k)
    {
    }
    assert LastEnd(a, |a|) == end;
    assert EndSignature(b, end);
    assert forall k :: end < k < |a| ==> !EndSignature(b, k);
    assert LastEnd(b, |b|) == end;
    assert forall i: nat :: end <= i && i + 2 <= |a| ==> U16(a, i) == U16(b, i);
    assert forall i: nat :: end <= i && i + 4 <= |a| ==> U32(a, i) == U32(b, i);
  }

  /** The reader does not depend on the patched bytes: an archive that agrees with an accepted one
      outside them is accepted with the same entries. */
  lemma ReadingIgnoresPatchedBytes(a: Bytes, b: Bytes)
    requires Entries(a).Ok? && AgreeOutside(a, b, Entries(a).value)
    ensures Entries(b) == Entries(a)
  {
    var es := Entries(a).value;
    AcceptedExactlyWhenTiled(a, es);
    EntriesAreSpaced(a);
    EndRecordAgrees(a, b, es);
    var (end, start, count) := EndRecord(a).value;
    TileAgrees(a, b, es, start, end);
    AcceptedExactlyWhenTiled(b, es);
  }

  lemma NormalizedAgrees(a: Bytes)
    requires Entries(a).Ok?
    ensures AgreeOutside(a, Normalized(a).value, Entries(a).value)
  {
    var es := Entries(a).value;
    EntriesAreSpaced(a);
    forall k | 0 <= k < |a| && !Patched(es, k)
      ensures a[k] == Normalized(a).value[k]
    {
      PatchAllAt(a, es, k);
    }
  }

  /** Normalising keeps the length, writes only the creator-system byte and the four attribute bytes of
      each header, keeps the archive readable with the same entries, and a second time changes nothing. */
  lemma NormalizationIsStable(a: Bytes)
    requires Normalized(a).Ok?
    ensures var b := Normalized(a).value;
            && AgreeOutside(a, b, Entries(a).value)
            && (forall i, d :: 0 <= i < |Entries(a).value| && PatchedOffset(d) ==>
                  PatchedAsSpecified(b, Entries(a).value[i], d))
            && Entries(b) == Entries(a)
            && Normalized(b) == Ok(b)
  {
    hide EndRecord, ParseFrom;
    var es := Entries(a).value;
    var b := Normalized(a).value;
    NormalizedAgrees(a);
    ReadingIgnoresPatchedBytes(a, b);
    EntriesAreSpaced(a);
    forall i, d | 0 <= i < |es| && PatchedOffset(d)
      ensures PatchedAsSpecified(b, es[i], d)
    {
      PatchAllAt(a, es, es[i].offset + d);
    }
    PatchingTwice(a, es);
  }

  ghost predicate PatchedAsSpecified(b: Bytes, e: Entry, d: int)
    requires PatchedOffset(d)
  {
    e.offset + d < |b| && b[e.offset + d] == PatchByte(e, d)
  }

  lemma PatchingTwice(a: Bytes, es: seq<Entry>)
    requires Spaced(es, |a|)
    ensures PatchAll(PatchAll(a, es), es) == PatchAll(a, es)
  {
    hide PatchAll;
    var b := PatchAll(a, es);
    var c := PatchAll(b, es);
    forall k | 0 <= k < |b|
      ensures c[k] == b[k]
    {
      PatchAllAt(a, es, k);
      PatchAllAt(b, es, k);
    }
  }

  /** Reproducibility: two accepted wheels normalise to the same bytes exactly when they agree outside
      the creator-system and external-attribute bytes of their entries. */
  lemma NormalizationIsReproducible(a: Bytes, b: Bytes)
    requires Normalized(a).Ok? && Normalized(b).Ok?
    ensures Normalized(a) == Normalized(b) <==> AgreeOutside(a, b, Entries(a).value)
  {
    var es := Entries(a).value;
    NormalizationIsStable(a);
    NormalizationIsStable(b);
    if AgreeOutside(a, b, es) {
      ReadingIgnoresPatchedBytes(a, b);
      EntriesAreSpaced(a);
      var x, y := Normalized(a).value, Normalized(b).value;
      forall k | 0 <= k < |a|
        ensures x[k] == y[k]
      {
        PatchAllAt(a, es, k);
        PatchAllAt(b, es, k);
      }
      assert x == y;
    }
  }
}
