/** A writer of ZIP archives without ZIP64 or several disks, laid out as in sections 4.3.12 and 4.3.16 of
    PKWARE APPNOTE.TXT, against which the reader of the build hook is proved: it accepts exactly what this
    writer can have written, and finds its entries. */
module WheelWriter {
  import opened Common
  import opened WheelNormalizer

  /** A central directory header: 24 bytes of versions, flags, times, checksum and sizes, three texts whose
      lengths follow, 12 bytes of disk number, attributes and local header offset. */
  datatype Header = Header(lead: Bytes, tail: Bytes, name: Bytes, extra: Bytes, comment: Bytes)

  /** An archive: local files, headers of the central directory, archive comment. */
  datatype Archive = Archive(files: Bytes, headers: seq<Header>, comment: Bytes)

  /** Two bytes, low byte first. */
  function Short(n: nat): Bytes {
    [n % 0x100, n / 0x100 % 0x100]
  }

  /** Four bytes, low byte first. */
  function Long(n: nat): Bytes {
    Short(n % 0x1_0000) + Short(n / 0x1_0000)
  }

  predicate GoodHeader(h: Header) {
    |h.lead| == 24 && |h.tail| == 12 && 1 <= |h.name| < 0x1_0000 && |h.extra| < 0x1_0000 && |h.comment| < 0x1_0000
  }

  /** "PK" 1 2, fixed fields and lengths. */
  function Fixed(h: Header): Bytes {
    [0x50, 0x4B, 1, 2] + h.lead + Short(|h.name|) + Short(|h.extra|) + Short(|h.comment|) + h.tail
  }

  function WriteHeader(h: Header): Bytes {
    Fixed(h) + h.name + h.extra + h.comment
  }

  function WriteDirectory(hs: seq<Header>): Bytes {
    if hs == [] then [] else WriteHeader(hs[0]) + WriteDirectory(hs[1..])
  }

  /** "PK" 5 6, disk numbers 0, the number of entries twice, size and start of the directory, comment. */
  function WriteEnd(count: nat, size: nat, start: nat, comment: Bytes): Bytes {
    [0x50, 0x4B, 5, 6, 0, 0, 0, 0] + Short(count) + Short(count) + Long(size) + Long(start) + Short(|comment|) + comment
  }

  function Write(w: Archive): Bytes {
    var directory := WriteDirectory(w.headers);
    w.files + directory + WriteEnd(|w.headers|, |directory|, |w.files|, w.comment)
  }

  predicate LooksLikeEnd(a: Bytes, k: int) {
    0 <= k <= |a| - 4 && a[k..k + 4] == [0x50, 0x4B, 5, 6]
  }

  /** The fields fit, with the values kept for ZIP64 left out, and nothing looks like a later end record. */
  ghost predicate Writable(w: Archive) {
    && (forall i :: 0 <= i < |w.headers| ==> GoodHeader(w.headers[i]))
    && |w.headers| < 0xFFFF && |WriteDirectory(w.headers)| < 0xFFFF_FFFF && |w.files| < 0xFFFF_FFFF
    && |w.comment| < 0x1_0000
    && forall k :: |w.files| + |WriteDirectory(w.headers)| < k ==> !LooksLikeEnd(Write(w), k)
  }

  /** Where each header starts, and its name. */
  function Listed(hs: seq<Header>, start: nat): seq<Entry> {
    if hs == [] then [] else [Entry(start, hs[0].name)] + Listed(hs[1..], start + |WriteHeader(hs[0])|)
  }

  // -------------------------------------------------------------- numbers

  lemma ShortRead(a: Bytes, i: nat, n: nat)
    requires i + 2 <= |a| && n < 0x1_0000
    ensures a[i..i + 2] == Short(n) <==> U16(a, i) == n
  {
    var s := a[i..i + 2];
    assert s[0] == a[i] && s[1] == a[i + 1];
    if s == Short(n) {
      assert s[0] == n % 0x100 && s[1] == n / 0x100 % 0x100;
    }
  }

  lemma LongRead(a: Bytes, i: nat, n: nat)
    requires i + 4 <= |a| && n < 0x1_0000_0000
    ensures a[i..i + 4] == Long(n) <==> U32(a, i) == n
  {
    hide Short, U16;
    var low, high := n % 0x1_0000, n / 0x1_0000;
    ShortSize(low);
    ShortSize(high);
    TwoPairs(a, i, Short(low), Short(high));
    ShortRead(a, i, low);
    ShortRead(a, i + 2, high);
    ShortBound(a, i);
  }

  lemma TwoPairs(a: Bytes, i: nat, x: Bytes, y: Bytes)
    requires i + 4 <= |a| && |x| == |y| == 2
    ensures a[i..i + 4] == x + y <==> a[i..i + 2] == x && a[i + 2..i + 4] == y
  {
    var s := a[i..i + 4];
    assert s[..2] == a[i..i + 2] && s[2..] == a[i + 2..i + 4];
    assert (x + y)[..2] == x && (x + y)[2..] == y;
  }

  lemma ShortBound(a: Bytes, i: nat)
    requires i + 2 <= |a|
    ensures U16(a, i) < 0x1_0000
  {
  }

  // -------------------------------------------------------------- one header

  lemma FixedParts(h: Header)
    requires GoodHeader(h)
    ensures |Fixed(h)| == HEADER_SIZE && |WriteHeader(h)| == HEADER_SIZE + |h.name| + |h.extra| + |h.comment|
    ensures Fixed(h)[..4] == [0x50, 0x4B, 1, 2]
    ensures Fixed(h)[28..30] == Short(|h.name|) && Fixed(h)[30..32] == Short(|h.extra|) && Fixed(h)[32..34] == Short(|h.comment|)
  {
    hide Short;
    var x, y, z := Short(|h.name|), Short(|h.extra|), Short(|h.comment|);
    assert |x| == |y| == |z| == 2 by {
      ShortSize(|h.name|);
      ShortSize(|h.extra|);
      ShortSize(|h.comment|);
    }
  }

  lemma ShortSize(n: nat)
    ensures |Short(n)| == 2
  {
  }

  /** A header's fixed bytes in their six fields. */
  lemma FixedSlices(a: Bytes, i: nat)
    requires i + HEADER_SIZE <= |a|
    ensures a[i..i + HEADER_SIZE] == a[i..i + 4] + a[i + 4..i + 28] + a[i + 28..i + 30] + a[i + 30..i + 32]
                                     + a[i + 32..i + 34] + a[i + 34..i + HEADER_SIZE]
    ensures a[i..i + HEADER_SIZE][28..30] == a[i + 28..i + 30] && a[i..i + HEADER_SIZE][30..32] == a[i + 30..i + 32]
    ensures a[i..i + HEADER_SIZE][32..34] == a[i + 32..i + 34]
  {
  }

  lemma SliceOfSlice(a: Bytes, i: nat, j: nat, p: nat, q: nat)
    requires i <= j <= |a| && p <= q <= j - i
    ensures a[i..j][p..q] == a[i + p..i + q]
  {
    var x, y := a[i..j][p..q], a[i + p..i + q];
    assert |x| == |y| && forall k :: 0 <= k < |x| ==> x[k] == a[i + p + k] && y[k] == a[i + p + k];
  }

  lemma NameFollows(h: Header)
    requires GoodHeader(h)
    ensures |WriteHeader(h)| >= HEADER_SIZE + |h.name| && WriteHeader(h)[HEADER_SIZE..HEADER_SIZE + |h.name|] == h.name
  {
    hide Fixed;
    FixedParts(h);
  }

  /** A written header is read as it was written. */
  lemma HeaderIsRead(a: Bytes, i: nat, h: Header)
    requires GoodHeader(h) && i + |WriteHeader(h)| <= |a| && a[i..i + |WriteHeader(h)|] == WriteHeader(h)
    ensures i + HEADER_SIZE <= |a| && HeaderSignature(a, i) && U16(a, i + 28) == |h.name|
    ensures EntryEnd(a, i) == i + |WriteHeader(h)| && EntryAt(a, i) == Entry(i, h.name)
  {
    hide Short, Fixed;
    FixedParts(h);
    var s := a[i..i + |WriteHeader(h)|];
    var fixed := a[i..i + HEADER_SIZE];
    SliceOfSlice(a, i, i + |WriteHeader(h)|, 0, HEADER_SIZE);
    assert fixed == s[0..HEADER_SIZE] == Fixed(h);
    assert a[i..i + 4] == fixed[..4];
    assert a[i..i + 4][0] == 0x50 && a[i..i + 4][1] == 0x4B && a[i..i + 4][2] == 1 && a[i..i + 4][3] == 2;
    FixedSlices(a, i);
    ShortRead(a, i + 28, |h.name|);
    ShortRead(a, i + 30, |h.extra|);
    ShortRead(a, i + 32, |h.comment|);
    NameFollows(h);
    SliceOfSlice(a, i, i + |WriteHeader(h)|, HEADER_SIZE, HEADER_SIZE + |h.name|);
  }

  /** The header that the bytes at `i` can have been written from. */
  function HeaderFrom(a: Bytes, i: nat): (h: Header)
    requires i + HEADER_SIZE <= |a| && EntryEnd(a, i) <= |a|
  {
    var n := i + HEADER_SIZE;
    var x := n + U16(a, i + 28);
    var c := x + U16(a, i + 30);
    Header(a[i + 4..i + 28], a[i + 34..n], a[n..x], a[x..c], a[c..EntryEnd(a, i)])
  }

  lemma HeaderWasWritten(a: Bytes, i: nat)
    requires i + HEADER_SIZE <= |a| && EntryEnd(a, i) <= |a| && HeaderSignature(a, i) && U16(a, i + 28) > 0
    ensures GoodHeader(HeaderFrom(a, i)) && WriteHeader(HeaderFrom(a, i)) == a[i..EntryEnd(a, i)]
  {
    hide Short;
    var h := HeaderFrom(a, i);
    assert U16(a, i + 28) < 0x1_0000 && U16(a, i + 30) < 0x1_0000 && U16(a, i + 32) < 0x1_0000;
    ShortRead(a, i + 28, |h.name|);
    ShortRead(a, i + 30, |h.extra|);
    ShortRead(a, i + 32, |h.comment|);
    assert a[i..i + 4] == [0x50, 0x4B, 1, 2];
    FixedSlices(a, i);
    assert Fixed(h) == a[i..i + HEADER_SIZE];
    var n := i + HEADER_SIZE;
    var x := n + |h.name|;
    var c := x + |h.extra|;
    assert a[i..n] + a[n..x] == a[i..x] && a[i..x] + a[x..c] == a[i..c];
    assert a[i..c] + a[c..EntryEnd(a, i)] == a[i..EntryEnd(a, i)];
  }

  // ------------------------------------------------------------ the directory

  lemma {:induction false} DirectoryIsRead(a: Bytes, start: nat, end: nat, hs: seq<Header>)
    requires start <= end <= |a| && a[start..end] == WriteDirectory(hs)
    requires forall i :: 0 <= i < |hs| ==> GoodHeader(hs[i])
    ensures ParseFrom(a, start, end) == Ok(Listed(hs, start))
    decreases |hs|
  {
    hide WriteHeader, EntryEnd, EntryAt, HeaderSignature, U16;
    if hs == [] {
      assert |a[start..end]| == 0;
    } else {
      var first, rest := WriteHeader(hs[0]), WriteDirectory(hs[1..]);
      var next := start + |first|;
      assert |a[start..end]| == |first| + |rest|;
      assert a[start..next] == a[start..end][..|first|] == first;
      assert a[next..end] == a[start..end][|first|..] == rest;
      FixedParts(hs[0]);
      HeaderIsRead(a, start, hs[0]);
      DirectoryIsRead(a, next, end, hs[1..]);
    }
  }

  lemma {:induction false} DirectoryWasWritten(a: Bytes, start: nat, end: nat) returns (hs: seq<Header>)
    requires start <= end <= |a| && ParseFrom(a, start, end).Ok?
    ensures forall i :: 0 <= i < |hs| ==> GoodHeader(hs[i])
    ensures WriteDirectory(hs) == a[start..end] && |hs| == |ParseFrom(a, start, end).value|
    decreases end - start
  {
    hide WriteHeader, HeaderFrom, EntryAt, HeaderSignature, U16;
    hs := [];
    if start < end {
      var next := EntryEnd(a, start);
      HeaderWasWritten(a, start);
      var rest := DirectoryWasWritten(a, next, end);
      hs := [HeaderFrom(a, start)] + rest;
      assert hs[1..] == rest;
      assert a[start..end] == a[start..next] + a[next..end];
    }
  }

  // ------------------------------------------------------------ the end record

  lemma EndParts(count: nat, size: nat, start: nat, comment: Bytes)
    ensures var e := WriteEnd(count, size, start, comment);
            && |e| == END_SIZE + |comment| && e[..4] == [0x50, 0x4B, 5, 6] && e[4..8] == [0, 0, 0, 0]
            && e[8..10] == Short(count) && e[10..12] == Short(count) && e[12..16] == Long(size) && e[16..20] == Long(start)
            && e[20..22] == Short(|comment|) && e[22..] == comment
  {
    hide Short, Long;
    ShortSize(count);
    ShortSize(|comment|);
    LongSize(size);
    LongSize(start);
  }

  lemma LongSize(n: nat)
    ensures |Long(n)| == 4
  {
  }

  /** The fields of an end record at `end`. */
  ghost predicate EndAt(a: Bytes, end: nat, count: nat, size: nat, start: nat, length: nat)
    requires end + END_SIZE <= |a|
  {
    && U16(a, end + 4) == 0 && U16(a, end + 6) == 0 && U16(a, end + 8) == count && U16(a, end + 10) == count
    && U32(a, end + 12) == size && U32(a, end + 16) == start && U16(a, end + 20) == length
  }

  lemma EndFields(a: Bytes, end: nat, count: nat, size: nat, start: nat, comment: Bytes)
    requires end + END_SIZE <= |a| && |a| == end + END_SIZE + |comment| && comment == a[end + END_SIZE..]
    requires count < 0x1_0000 && size < 0x1_0000_0000 && start < 0x1_0000_0000 && |comment| < 0x1_0000
    ensures a[end..] == WriteEnd(count, size, start, comment) <==>
              a[end..end + 4] == [0x50, 0x4B, 5, 6] && EndAt(a, end, count, size, start, |comment|)
  {
    hide Short, Long, U16, U32, WriteEnd;
    var e, w := a[end..], WriteEnd(count, size, start, comment);
    EndParts(count, size, start, comment);
    ZeroShorts(a, end + 4);
    ShortRead(a, end + 8, count);
    ShortRead(a, end + 10, count);
    LongRead(a, end + 12, size);
    LongRead(a, end + 16, start);
    ShortRead(a, end + 20, |comment|);
    Slices(a, end);
    Slices(w, 0);
    assert w[0..] == w;
  }

  lemma ZeroShorts(a: Bytes, i: nat)
    requires i + 4 <= |a|
    ensures a[i..i + 4] == [0, 0, 0, 0] <==> U16(a, i) == 0 && U16(a, i + 2) == 0
  {
    assert a[i..i + 4][0] == a[i] && a[i..i + 4][1] == a[i + 1] && a[i..i + 4][2] == a[i + 2] && a[i..i + 4][3] == a[i + 3];
  }

  /** An end record in its eight fields. */
  lemma Slices(a: Bytes, i: nat)
    requires i + END_SIZE <= |a|
    ensures a[i..] == a[i..i + 4] + a[i + 4..i + 8] + a[i + 8..i + 10] + a[i + 10..i + 12] + a[i + 12..i + 16]
                      + a[i + 16..i + 20] + a[i + 20..i + 22] + a[i + 22..]
    ensures a[i..][..4] == a[i..i + 4] && a[i..][4..8] == a[i + 4..i + 8] && a[i..][8..10] == a[i + 8..i + 10]
    ensures a[i..][10..12] == a[i + 10..i + 12] && a[i..][12..16] == a[i + 12..i + 16] && a[i..][16..20] == a[i + 16..i + 20]
    ensures a[i..][20..22] == a[i + 20..i + 22] && a[i..][22..] == a[i + 22..]
  {
  }

  lemma SignatureBytes(a: Bytes, i: int)
    ensures EndSignature(a, i) <==> LooksLikeEnd(a, i)
  {
    if 0 <= i <= |a| - 4 {
      assert a[i..i + 4][0] == a[i] && a[i..i + 4][1] == a[i + 1] && a[i..i + 4][2] == a[i + 2] && a[i..i + 4][3] == a[i + 3];
    }
  }

  lemma LastEndIs(a: Bytes, end: nat)
    requires LooksLikeEnd(a, end) && forall k :: end < k ==> !LooksLikeEnd(a, k)
    ensures LastEnd(a, |a|) == end
  {
    hide EndSignature;
    SignatureBytes(a, end);
    forall k | end < k < |a|
      ensures !EndSignature(a, k)
    {
      SignatureBytes(a, k);
    }
  }

  // ------------------------------------------------------------- main theorems

  /** Whatever the writer writes is accepted, with exactly the entries written. */
  lemma WrittenIsRead(w: Archive)
    requires Writable(w)
    ensures Entries(Write(w)) == Ok(Listed(w.headers, |w.files|))
  {
    hide WriteDirectory, WriteEnd, U16, U32, Listed, LastEnd;
    var a, directory := Write(w), WriteDirectory(w.headers);
    var start, end := |w.files|, |w.files| + |directory|;
    EndParts(|w.headers|, |directory|, start, w.comment);
    var e := WriteEnd(|w.headers|, |directory|, start, w.comment);
    assert a[end..] == e;
    assert a[end + END_SIZE..] == e[END_SIZE..] == w.comment;
    EndFields(a, end, |w.headers|, |directory|, start, w.comment);
    LastEndIs(a, end);
    assert EndRecord(a) == Ok((end, start, |w.headers|));
    assert a[start..end] == directory;
    DirectoryIsRead(a, start, end, w.headers);
    ListedSize(w.headers, start);
  }

  lemma {:induction false} ListedSize(hs: seq<Header>, start: nat)
    ensures |Listed(hs, start)| == |hs|
  {
    if hs != [] {
      ListedSize(hs[1..], start + |WriteHeader(hs[0])|);
    }
  }

  /** Whatever is accepted can have been written. */
  lemma AcceptedWasWritten(a: Bytes) returns (w: Archive)
    requires Entries(a).Ok?
    ensures Writable(w) && Write(w) == a
  {
    hide WriteDirectory, WriteEnd, LooksLikeEnd, LastEnd, Entries, EndRecord, ParseFrom;
    var end, start, count := EndWasWritten(a);
    var hs := DirectoryWasWritten(a, start, end);
    w := Archive(a[..start], hs, a[end + END_SIZE..]);
    assert a == a[..start] + a[start..end] + a[end..];
  }

  /** The end record found, printed again. */
  lemma EndWasWritten(a: Bytes) returns (end: nat, start: nat, count: nat)
    requires Entries(a).Ok?
    ensures start <= end <= |a| - END_SIZE && count < 0xFFFF && start < 0xFFFF_FFFF && end - start < 0xFFFF_FFFF
    ensures |a| - end - END_SIZE < 0x1_0000
    ensures a[end..] == WriteEnd(count, end - start, start, a[end + END_SIZE..])
    ensures forall k :: end < k ==> !LooksLikeEnd(a, k)
    ensures ParseFrom(a, start, end).Ok? && |ParseFrom(a, start, end).value| == count
  {
    hide WriteEnd, U16, U32, EndSignature, LooksLikeEnd, ParseFrom;
    end, start, count := EndRecord(a).value.0, EndRecord(a).value.1, EndRecord(a).value.2;
    ShortBound(a, end + 20);
    ShortBound(a, end + 10);
    LongBound(a, end + 12);
    LongBound(a, end + 16);
    SignatureBytes(a, end);
    assert a[end..end + 4] == [0x50, 0x4B, 5, 6] by {
      SignatureIsFound(a, end);
    }
    EndFields(a, end, count, end - start, start, a[end + END_SIZE..]);
    forall k | end < k
      ensures !LooksLikeEnd(a, k)
    {
      SignatureBytes(a, k);
      if k >= |a| {
        NoSignatureAtEnd(a, k);
      }
    }
  }

  lemma SignatureIsFound(a: Bytes, i: int)
    requires LooksLikeEnd(a, i)
    ensures a[i..i + 4] == [0x50, 0x4B, 5, 6]
  {
  }

  lemma NoSignatureAtEnd(a: Bytes, k: int)
    requires k >= |a|
    ensures !EndSignature(a, k)
  {
  }

  lemma LongBound(a: Bytes, i: nat)
    requires i + 4 <= |a|
    ensures U32(a, i) < 0x1_0000_0000
  {
  }

  /** The reader accepts an archive with given entries exactly when some archive with those entries is
      written like that. */
  lemma AcceptedExactlyWhenWritten(a: Bytes, es: seq<Entry>)
    ensures Entries(a) == Ok(es) <==>
              exists w :: Writable(w) && Write(w) == a && es == Listed(w.headers, |w.files|)
  {
    hide Entries, Writable, Write, Listed;
    if Entries(a) == Ok(es) {
      var w := AcceptedWasWritten(a);
      WrittenIsRead(w);
    }
    forall w | Writable(w) && Write(w) == a && es == Listed(w.headers, |w.files|)
      ensures Entries(a) == Ok(es)
    {
      WrittenIsRead(w);
    }
  }

  // ------------------------------------------------------------- why it refuses

  /** Complete headers, as written, stand from `start` up to `p`. */
  ghost predicate HeadersUpTo(a: Bytes, start: nat, p: nat, hs: seq<Header>) {
    start <= p <= |a| && a[start..p] == WriteDirectory(hs) && forall i :: 0 <= i < |hs| ==> GoodHeader(hs[i])
  }

  lemma {:induction false} ParsePastHeaders(a: Bytes, start: nat, p: nat, end: nat, hs: seq<Header>)
    requires p <= end <= |a| && HeadersUpTo(a, start, p, hs)
    ensures ParseFrom(a, start, end) == Prepend(Listed(hs, start), ParseFrom(a, p, end))
    decreases |hs|
  {
    hide WriteHeader, EntryEnd, EntryAt, HeaderSignature, U16;
    if hs == [] {
      assert |a[start..p]| == 0;
      PrependNothing(ParseFrom(a, p, end));
    } else {
      var first, rest := WriteHeader(hs[0]), WriteDirectory(hs[1..]);
      var next := start + |first|;
      assert |a[start..p]| == |first| + |rest|;
      assert a[start..next] == a[start..p][..|first|] == first;
      assert a[next..p] == a[start..p][|first|..] == rest;
      FixedParts(hs[0]);
      HeaderIsRead(a, start, hs[0]);
      ParsePastHeaders(a, next, p, end, hs[1..]);
      PrependTwice([Entry(start, hs[0].name)], Listed(hs[1..], next), ParseFrom(a, p, end));
    }
  }

  lemma PrependNothing(rest: Result<seq<Entry>, FormatError>)
    ensures Prepend([], rest) == rest
  {
    if rest.Ok? {
      assert [] + rest.value == rest.value;
    }
  }

  lemma PrependTwice(es: seq<Entry>, fs: seq<Entry>, rest: Result<seq<Entry>, FormatError>)
    ensures Prepend(es, Prepend(fs, rest)) == Prepend(es + fs, rest)
  {
    if rest.Ok? {
      assert es + (fs + rest.value) == es + fs + rest.value;
    }
  }

  /** Where reading stops: after complete headers, at the end or at what is no complete header. */
  lemma {:induction false} ReadingStops(a: Bytes, start: nat, end: nat) returns (hs: seq<Header>, p: nat)
    requires start <= end <= |a|
    ensures p <= end && HeadersUpTo(a, start, p, hs)
    ensures ParseFrom(a, start, end).Ok? <==> p == end
    ensures ParseFrom(a, start, end).Err? ==> ParseFrom(a, p, end) == ParseFrom(a, start, end)
    ensures p < end ==> NoHeader(a, p, end) || CutHeader(a, p, end)
    decreases end - start
  {
    hide WriteHeader, HeaderFrom, EntryAt, HeaderSignature, U16, NoHeader, CutHeader;
    hs, p := [], start;
    assert a[start..start] == [];
    if start < end {
      ErrorsAt(a, start, end);
      if !NoHeader(a, start, end) && !CutHeader(a, start, end) {
        HeaderWasWritten(a, start);
        var next := EntryEnd(a, start);
        var rest;
        rest, p := ReadingStops(a, next, end);
        hs := [HeaderFrom(a, start)] + rest;
        assert hs[1..] == rest;
        assert a[start..p] == a[start..next] + a[next..p];
      }
    }
  }

  /** Too few bytes for a header, or no "PK" 1 2. */
  ghost predicate NoHeader(a: Bytes, p: nat, end: nat)
    requires end <= |a|
  {
    p + 46 > end || a[p..p + 4] != [0x50, 0x4B, 1, 2]
  }

  /** A header without a name, or longer than the rest of the directory. */
  ghost predicate CutHeader(a: Bytes, p: nat, end: nat)
    requires end <= |a|
  {
    && p + 46 <= end && a[p..p + 4] == [0x50, 0x4B, 1, 2]
    && (a[p + 28..p + 30] == [0, 0] || p + 46 + U16(a, p + 28) + U16(a, p + 30) + U16(a, p + 32) > end)
  }

  lemma ErrorsAt(a: Bytes, p: nat, end: nat)
    requires p < end <= |a|
    ensures ParseFrom(a, p, end) == Err(InvalidEntry) <== NoHeader(a, p, end)
    ensures ParseFrom(a, p, end) == Err(TruncatedEntry) <== CutHeader(a, p, end)
    ensures !NoHeader(a, p, end) && !CutHeader(a, p, end) ==>
              && p + HEADER_SIZE <= end && HeaderSignature(a, p) && U16(a, p + 28) > 0 && EntryEnd(a, p) <= end
  {
    if p + 46 <= end {
      assert a[p..p + 4][0] == a[p] && a[p..p + 4][1] == a[p + 1] && a[p..p + 4][2] == a[p + 2] && a[p..p + 4][3] == a[p + 3];
      ShortRead(a, p + 28, 0);
      assert Short(0) == [0, 0];
    }
  }

  /** A directory is refused for what stands after its complete headers: bytes that are no header, or a
      header that is cut short or has no name. */
  lemma DirectoryRefusals(a: Bytes, start: nat, end: nat)
    requires start <= end <= |a|
    ensures ParseFrom(a, start, end) == Err(InvalidEntry) <==>
              exists hs, p: nat :: p < end && HeadersUpTo(a, start, p, hs) && NoHeader(a, p, end)
    ensures ParseFrom(a, start, end) == Err(TruncatedEntry) <==>
              exists hs, p: nat :: p < end && HeadersUpTo(a, start, p, hs) && CutHeader(a, p, end)
    ensures ParseFrom(a, start, end).Err? ==> ParseFrom(a, start, end).error in {InvalidEntry, TruncatedEntry}
  {
    hide HeadersUpTo, NoHeader, CutHeader, ParseFrom, Listed;
    var hs, p := ReadingStops(a, start, end);
    if p < end {
      ErrorsAt(a, p, end);
    }
    forall hs, p: nat | p < end && HeadersUpTo(a, start, p, hs) && (NoHeader(a, p, end) || CutHeader(a, p, end))
      ensures ParseFrom(a, start, end) == Err(if NoHeader(a, p, end) then InvalidEntry else TruncatedEntry)
    {
      ParsePastHeaders(a, start, p, end, hs);
      ErrorsAt(a, p, end);
    }
    NotBoth(a, end);
  }

  lemma NotBoth(a: Bytes, end: nat)
    requires end <= |a|
    ensures forall p: nat :: !(NoHeader(a, p, end) && CutHeader(a, p, end))
  {
  }

  /** The checks on the last end record, in their order, each with its exact cause in its bytes. */
  lemma EndRefusals(a: Bytes, end: nat)
    requires LooksLikeEnd(a, end) && forall k :: end < k ==> !LooksLikeEnd(a, k)
    ensures Entries(a) == Err(TruncatedEndRecord) <==> |a| < end + 22
    ensures |a| >= end + 22 ==>
              var disks := a[end + 4..end + 8] != [0, 0, 0, 0] || a[end + 8..end + 10] != a[end + 10..end + 12];
              var zip64 := a[end + 10..end + 12] == [0xFF, 0xFF] || a[end + 12..end + 16] == [0xFF, 0xFF, 0xFF, 0xFF]
                           || a[end + 16..end + 20] == [0xFF, 0xFF, 0xFF, 0xFF];
              var trailing := |a| - end - 22 >= 0x1_0000 || a[end + 20..end + 22] != Short(|a| - end - 22);
              var size, start := U32(a, end + 12), U32(a, end + 16);
              && (Entries(a) == Err(MultiDisk) <==> disks)
              && (Entries(a) == Err(Zip64) <==> !disks && zip64)
              && (Entries(a) == Err(TrailingData) <==> !disks && !zip64 && trailing)
              && (Entries(a) == Err(InvalidDirectory) <==> !disks && !zip64 && !trailing && start + size != end)
              && (Entries(a) == Err(CountMismatch) <==>
                    && !disks && !zip64 && !trailing && start + size == end && ParseFrom(a, start, end).Ok?
                    && |ParseFrom(a, start, end).value| != U16(a, end + 10))
  {
    hide U16, U32, LooksLikeEnd, Short, ParseFrom;
    LastEndIs(a, end);
    if |a| >= end + 22 {
      EndTests(a, end);
      if U32(a, end + 16) <= end {
        DirectoryRefusals(a, U32(a, end + 16), end);
      }
    }
  }

  lemma EndTests(a: Bytes, end: nat)
    requires |a| >= end + 22
    ensures a[end + 4..end + 8] == [0, 0, 0, 0] <==> U16(a, end + 4) == 0 && U16(a, end + 6) == 0
    ensures a[end + 8..end + 10] == a[end + 10..end + 12] <==> U16(a, end + 8) == U16(a, end + 10)
    ensures a[end + 10..end + 12] == [0xFF, 0xFF] <==> U16(a, end + 10) == 0xFFFF
    ensures a[end + 12..end + 16] == [0xFF, 0xFF, 0xFF, 0xFF] <==> U32(a, end + 12) == 0xFFFF_FFFF
    ensures a[end + 16..end + 20] == [0xFF, 0xFF, 0xFF, 0xFF] <==> U32(a, end + 16) == 0xFFFF_FFFF
    ensures |a| - end - 22 < 0x1_0000 ==> (a[end + 20..end + 22] == Short(|a| - end - 22) <==> U16(a, end + 20) == |a| - end - 22)
    ensures U16(a, end + 20) < 0x1_0000
  {
    hide U16, U32, Short, Long;
    ZeroShorts(a, end + 4);
    ShortBound(a, end + 8);
    ShortRead(a, end + 8, U16(a, end + 8));
    ShortRead(a, end + 10, U16(a, end + 8));
    ShortRead(a, end + 10, 0xFFFF);
    LongRead(a, end + 12, 0xFFFF_FFFF);
    LongRead(a, end + 16, 0xFFFF_FFFF);
    AllOnes();
    ShortBound(a, end + 20);
    if |a| - end - 22 < 0x1_0000 {
      ShortRead(a, end + 20, |a| - end - 22);
    }
  }

  lemma AllOnes()
    ensures Short(0xFFFF) == [0xFF, 0xFF] && Long(0xFFFF_FFFF) == [0xFF, 0xFF, 0xFF, 0xFF]
  {
  }

  lemma NoEndNoEntries(a: Bytes)
    ensures Entries(a) == Err(NoEndRecord) <==> forall k :: !LooksLikeEnd(a, k)
  {
    hide LooksLikeEnd;
    var r := LastEnd(a, |a|);
    if r >= 0 {
      SignatureBytes(a, r);
    }
    forall k | r < 0
      ensures !LooksLikeEnd(a, k)
    {
      SignatureBytes(a, k);
      if k >= |a| {
        NoSignatureAtEnd(a, k);
      }
    }
    if r >= 0 && EndRecord(a).Ok? {
      DirectoryRefusals(a, EndRecord(a).value.1, EndRecord(a).value.0);
    }
  }

  // ----------------------------------------------------- what normalising writes

  /** Little-endian external attributes: a directory, whose name ends in a slash, with mode 755 and the DOS
      directory bit; anything else a regular file with mode 644. */
  function ModeBytes(name: Bytes): Bytes {
    if |name| > 0 && name[|name| - 1] == '/' as int then [0x10, 0, 0xED, 0x41] else [0, 0, 0xA4, 0x81]
  }

  /** The header of an entry made on Unix with that mode, as it is otherwise. */
  function WithMode(h: Header): Header
    requires GoodHeader(h)
  {
    h.(lead := h.lead[1 := 3], tail := h.tail[..4] + ModeBytes(h.name) + h.tail[8..])
  }

  function WithModes(hs: seq<Header>): seq<Header>
    requires forall i :: 0 <= i < |hs| ==> GoodHeader(hs[i])
  {
    seq(|hs|, i requires 0 <= i < |hs| => WithMode(hs[i]))
  }

  /** Where the bytes of a header come from. */
  lemma HeaderByte(h: Header, d: nat)
    requires GoodHeader(h) && d < |WriteHeader(h)|
    ensures WriteHeader(h)[d] ==
            if d < 4 then [0x50, 0x4B, 1, 2][d] else if d < 28 then h.lead[d - 4]
            else if d < 34 then (Short(|h.name|) + Short(|h.extra|) + Short(|h.comment|))[d - 28]
            else if d < HEADER_SIZE then h.tail[d - 34] else (h.name + h.extra + h.comment)[d - HEADER_SIZE]
  {
    hide Short;
    ShortSize(|h.name|);
    ShortSize(|h.extra|);
    ShortSize(|h.comment|);
  }

  lemma WithModeIsGood(h: Header)
    requires GoodHeader(h)
    ensures GoodHeader(WithMode(h)) && |WriteHeader(WithMode(h))| == |WriteHeader(h)|
  {
    hide Fixed;
    FixedParts(h);
    FixedParts(WithMode(h));
  }

  /** The five bytes that a patch writes are those in which the two headers differ. */
  lemma PatchedHeader(h: Header, o: nat, d: nat)
    requires GoodHeader(h) && d < |WriteHeader(h)|
    ensures |WriteHeader(WithMode(h))| == |WriteHeader(h)|
    ensures WriteHeader(WithMode(h))[d] == if PatchedOffset(d) then PatchByte(Entry(o, h.name), d) else WriteHeader(h)[d]
  {
    hide Short, WriteHeader, PatchByte;
    WithModeIsGood(h);
    HeaderByte(h, d);
    HeaderByte(WithMode(h), d);
    AttributeBytes(Entry(o, h.name));
  }

  lemma PatchOne(before: Bytes, h: Header, after: Bytes)
    requires GoodHeader(h)
    ensures |WriteHeader(h)| >= HEADER_SIZE && |WriteHeader(WithMode(h))| == |WriteHeader(h)|
    ensures Patch(before + WriteHeader(h) + after, Entry(|before|, h.name)) == before + WriteHeader(WithMode(h)) + after
  {
    hide Patch, WriteHeader, WithMode, PatchByte, PatchedOffset;
    WithModeIsGood(h);
    HeaderSize(h);
    var a, b, e := before + WriteHeader(h) + after, before + WriteHeader(WithMode(h)) + after, Entry(|before|, h.name);
    forall k | 0 <= k < |a|
      ensures Patch(a, e)[k] == b[k]
    {
      PatchAt(a, e, k);
      if |before| <= k < |before| + |WriteHeader(h)| {
        PatchedHeader(h, |before|, k - |before|);
      } else {
        NotInHeader(k - |before|, |WriteHeader(h)|);
      }
    }
  }

  lemma NotInHeader(d: int, size: nat)
    requires size >= HEADER_SIZE && (d < 0 || size <= d)
    ensures !PatchedOffset(d)
  {
  }

  lemma HeaderSize(h: Header)
    requires GoodHeader(h)
    ensures |WriteHeader(h)| >= HEADER_SIZE
  {
    hide Fixed;
    FixedParts(h);
  }

  lemma {:induction false} DirectorySnoc(hs: seq<Header>, h: Header, start: nat)
    ensures WriteDirectory(hs + [h]) == WriteDirectory(hs) + WriteHeader(h)
    ensures Listed(hs + [h], start) == Listed(hs, start) + [Entry(start + |WriteDirectory(hs)|, h.name)]
    decreases |hs|
  {
    hide WriteHeader;
    if hs == [] {
      assert [h][1..] == [];
    } else {
      assert (hs + [h])[1..] == hs[1..] + [h];
      DirectorySnoc(hs[1..], h, start + |WriteHeader(hs[0])|);
    }
  }

  lemma {:induction false} ListedAreSpaced(hs: seq<Header>, start: nat, limit: nat)
    requires forall i :: 0 <= i < |hs| ==> GoodHeader(hs[i])
    requires start + |WriteDirectory(hs)| <= limit
    ensures Spaced(Listed(hs, start), limit)
    ensures forall i :: 0 <= i < |Listed(hs, start)| ==> Listed(hs, start)[i].offset >= start
    decreases |hs|
  {
    hide WriteHeader;
    if hs != [] {
      HeaderSize(hs[0]);
      ListedAreSpaced(hs[1..], start + |WriteHeader(hs[0])|, limit);
    }
  }

  lemma {:induction false} PatchDirectory(files: Bytes, hs: seq<Header>, after: Bytes)
    requires forall i :: 0 <= i < |hs| ==> GoodHeader(hs[i])
    ensures |WriteDirectory(WithModes(hs))| == |WriteDirectory(hs)|
    ensures var es := Listed(hs, |files|);
            var a := files + WriteDirectory(hs) + after;
            Spaced(es, |a|) && PatchAll(a, es) == files + WriteDirectory(WithModes(hs)) + after
    decreases |hs|
  {
    hide WriteHeader, WithMode, Patch, Spaced;
    ListedAreSpaced(hs, |files|, |files + WriteDirectory(hs) + after|);
    if hs == [] {
      assert WithModes(hs) == [];
    } else {
      var front, h := hs[..|hs| - 1], hs[|hs| - 1];
      assert hs == front + [h] && WithModes(hs) == WithModes(front) + [WithMode(h)];
      DirectorySnoc(front, h, |files|);
      DirectorySnoc(WithModes(front), WithMode(h), |files|);
      var rest := WriteHeader(h) + after;
      PatchDirectory(files, front, rest);
      var patched := files + WriteDirectory(WithModes(front));
      PatchOne(patched, h, after);
      assert files + WriteDirectory(hs) + after == files + WriteDirectory(front) + rest;
      var es := Listed(hs, |files|);
      assert es[..|es| - 1] == Listed(front, |files|);
      assert patched + WriteHeader(h) + after == patched + rest;
      assert patched + WriteHeader(WithMode(h)) + after == files + WriteDirectory(WithModes(hs)) + after;
    }
  }

  /** Normalising a written archive gives the archive that is written with Unix modes, byte for byte. */
  lemma NormalizingRewritesModes(w: Archive)
    requires Writable(w)
    ensures Normalized(Write(w)) == Ok(Write(w.(headers := WithModes(w.headers))))
  {
    hide WriteDirectory, WriteEnd, PatchAll, Listed, Entries;
    var directory := WriteDirectory(w.headers);
    var end := WriteEnd(|w.headers|, |directory|, |w.files|, w.comment);
    WrittenIsRead(w);
    PatchDirectory(w.files, w.headers, end);
  }
}
