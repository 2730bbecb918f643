/** The kernel image archive: an uncompressed ZIP without ZIP64, written at build time and read back with
    seeks and reads at run time. Layouts follow sections 4.3.7, 4.3.12 and 4.3.16 of the PKWARE APPNOTE. */
module FlatZip {
  import opened Bytes

  const LOCAL_HEADER_SIG := 0x04034b50
  const CENTRAL_DIR_SIG := 0x02014b50
  const EOCD_SIG := 0x06054b50
  const VERSION_NEEDED := 20
  const VERSION_MADE_BY := 20
  const GP_FLAG_UTF8 := 0x0800
  const COMPRESSION_STORED := 0

  const EOCD_MIN_SIZE := 22
  const EOCD_SEARCH_MAX := 65536 + EOCD_MIN_SIZE

  /** One file to store; crc is the checksum the writer computes, which the reader never looks at. */
  datatype Entry = Entry(name: seq<Byte>, data: seq<Byte>, crc: int)

  // ---------------------------------------------------------------- the writer

  /** struct.pack raises for a value that does not fit its field. */
  predicate Fits16(n: int) { 0 <= n < 0x1_0000 }
  predicate Fits32(n: int) { 0 <= n < 0x1_0000_0000 }

  predicate LocalFits(e: Entry) { Fits32(|e.data|) && Fits16(|e.name|) && Fits32(e.crc) }

  /** Section 4.3.7 of the APPNOTE. */
  function LocalFileHeader(e: Entry): (h: seq<Byte>)
    requires LocalFits(e)
    ensures |h| == 30 + |e.name| && h[30..] == e.name
    ensures Le32(h, 0) == 0x04034b50 && Le16(h, 4) == 20 && Le16(h, 6) == 0x0800
    ensures Le16(h, 8) == 0 && Le16(h, 10) == 0 && Le16(h, 12) == 0
    ensures Le32(h, 14) == e.crc && Le32(h, 18) == |e.data| && Le32(h, 22) == |e.data|
    ensures Le16(h, 26) == |e.name| && Le16(h, 28) == 0
  {
    var sig := U32(LOCAL_HEADER_SIG);
    var versions := U16s([VERSION_NEEDED, GP_FLAG_UTF8, COMPRESSION_STORED, 0, 0]);
    var sizes := U32s([e.crc, |e.data|, |e.data|]);
    var lens := U16s([|e.name|, 0]);
    LocalFields(sig, versions, sizes, lens, e.name);
    assert Le16(versions, 2 * 0) == VERSION_NEEDED && Le16(versions, 2 * 1) == GP_FLAG_UTF8;
    assert Le16(versions, 2 * 2) == COMPRESSION_STORED && Le16(versions, 2 * 3) == 0 && Le16(versions, 2 * 4) == 0;
    assert Le32(sizes, 4 * 0) == e.crc && Le32(sizes, 4 * 1) == |e.data| && Le32(sizes, 4 * 2) == |e.data|;
    assert Le16(lens, 2 * 0) == |e.name| && Le16(lens, 2 * 1) == 0;
    sig + versions + sizes + lens + e.name
  }

  lemma LocalFields(sig: seq<Byte>, versions: seq<Byte>, sizes: seq<Byte>, lens: seq<Byte>, name: seq<Byte>)
    requires |sig| == 4 && |versions| == 10 && |sizes| == 12 && |lens| == 4
    ensures var h := sig + versions + sizes + lens + name;
      && |h| == 30 + |name| && h[30..] == name
      && Le32(h, 0) == Le32(sig, 0) && Le16(h, 4) == Le16(versions, 0) && Le16(h, 6) == Le16(versions, 2)
      && Le16(h, 8) == Le16(versions, 4) && Le16(h, 10) == Le16(versions, 6) && Le16(h, 12) == Le16(versions, 8)
      && Le32(h, 14) == Le32(sizes, 0) && Le32(h, 18) == Le32(sizes, 4)
      && Le32(h, 22) == Le32(sizes, 8) && Le16(h, 26) == Le16(lens, 0) && Le16(h, 28) == Le16(lens, 2)
  {
    hide Le16, Le32;
    var h := sig + versions + sizes + lens + name;
    assert h == [] + sig + (versions + sizes + lens + name);
    Le32In([], sig, versions + sizes + lens + name, 0);
    assert h == sig + versions + (sizes + lens + name);
    Le16In(sig, versions, sizes + lens + name, 0);
    Le16In(sig, versions, sizes + lens + name, 2);
    Le16In(sig, versions, sizes + lens + name, 4);
    Le16In(sig, versions, sizes + lens + name, 6);
    Le16In(sig, versions, sizes + lens + name, 8);
    assert h == (sig + versions) + sizes + (lens + name);
    Le32In(sig + versions, sizes, lens + name, 0);
    Le32In(sig + versions, sizes, lens + name, 4);
    Le32In(sig + versions, sizes, lens + name, 8);
    Le16In(sig + versions + sizes, lens, name, 0);
    Le16In(sig + versions + sizes, lens, name, 2);
  }

  predicate CentralFits(e: Entry, localOffset: int) { LocalFits(e) && Fits32(localOffset) }

  /** Section 4.3.12 of the APPNOTE. */
  function CentralDirEntry(e: Entry, localOffset: int): (h: seq<Byte>)
    requires CentralFits(e, localOffset)
    ensures |h| == 46 + |e.name| && h[46..] == e.name
    ensures Le32(h, 0) == 0x02014b50 && Le16(h, 4) == 20 && Le16(h, 6) == 20
    ensures Le16(h, 8) == 0x0800 && Le16(h, 10) == 0 && Le16(h, 12) == 0 && Le16(h, 14) == 0
    ensures Le32(h, 16) == e.crc && Le32(h, 20) == |e.data| && Le32(h, 24) == |e.data|
    ensures Le16(h, 28) == |e.name| && Le16(h, 30) == 0 && Le16(h, 32) == 0
    ensures Le16(h, 34) == 0 && Le16(h, 36) == 0 && Le32(h, 38) == 0
    ensures Le32(h, 42) == localOffset
  {
    var sig := U32(CENTRAL_DIR_SIG);
    var versions := U16s([VERSION_MADE_BY, VERSION_NEEDED, GP_FLAG_UTF8, COMPRESSION_STORED, 0, 0]);
    var sizes := U32s([e.crc, |e.data|, |e.data|]);
    var lens := U16s([|e.name|, 0, 0, 0, 0]);
    var tail := U32s([0, localOffset]);
    CentralFields(sig, versions, sizes, lens, tail, e.name);
    assert Le16(versions, 2 * 0) == VERSION_MADE_BY && Le16(versions, 2 * 1) == VERSION_NEEDED;
    assert Le16(versions, 2 * 2) == GP_FLAG_UTF8 && Le16(versions, 2 * 3) == COMPRESSION_STORED;
    assert Le16(versions, 2 * 4) == 0 && Le16(versions, 2 * 5) == 0;
    assert Le32(sizes, 4 * 0) == e.crc && Le32(sizes, 4 * 1) == |e.data| && Le32(sizes, 4 * 2) == |e.data|;
    assert Le16(lens, 2 * 0) == |e.name| && Le16(lens, 2 * 1) == 0 && Le16(lens, 2 * 2) == 0;
    assert Le16(lens, 2 * 3) == 0 && Le16(lens, 2 * 4) == 0;
    assert Le32(tail, 4 * 0) == 0 && Le32(tail, 4 * 1) == localOffset;
    sig + versions + sizes + lens + tail + e.name
  }

  lemma CentralFields(sig: seq<Byte>, versions: seq<Byte>, sizes: seq<Byte>, lens: seq<Byte>, tail: seq<Byte>, name: seq<Byte>)
    requires |sig| == 4 && |versions| == 12 && |sizes| == 12 && |lens| == 10 && |tail| == 8
    ensures var h := sig + versions + sizes + lens + tail + name;
      && |h| == 46 + |name| && h[46..] == name
      && Le32(h, 0) == Le32(sig, 0) && Le16(h, 4) == Le16(versions, 0) && Le16(h, 6) == Le16(versions, 2)
      && Le16(h, 8) == Le16(versions, 4) && Le16(h, 10) == Le16(versions, 6)
      && Le16(h, 12) == Le16(versions, 8) && Le16(h, 14) == Le16(versions, 10)
      && Le32(h, 16) == Le32(sizes, 0) && Le32(h, 20) == Le32(sizes, 4) && Le32(h, 24) == Le32(sizes, 8)
      && Le16(h, 28) == Le16(lens, 0) && Le16(h, 30) == Le16(lens, 2)
      && Le16(h, 32) == Le16(lens, 4) && Le16(h, 34) == Le16(lens, 6) && Le16(h, 36) == Le16(lens, 8)
      && Le32(h, 38) == Le32(tail, 0) && Le32(h, 42) == Le32(tail, 4)
  {
    hide Le16, Le32;
    var h := sig + versions + sizes + lens + tail + name;
    assert h == [] + sig + (versions + sizes + lens + tail + name);
    Le32In([], sig, versions + sizes + lens + tail + name, 0);
    assert h == sig + versions + (sizes + lens + tail + name);
    Le16In(sig, versions, sizes + lens + tail + name, 0);
    Le16In(sig, versions, sizes + lens + tail + name, 2);
    Le16In(sig, versions, sizes + lens + tail + name, 4);
    Le16In(sig, versions, sizes + lens + tail + name, 6);
    Le16In(sig, versions, sizes + lens + tail + name, 8);
    Le16In(sig, versions, sizes + lens + tail + name, 10);
    assert h == (sig + versions) + sizes + (lens + tail + name);
    Le32In(sig + versions, sizes, lens + tail + name, 0);
    Le32In(sig + versions, sizes, lens + tail + name, 4);
    Le32In(sig + versions, sizes, lens + tail + name, 8);
    assert h == (sig + versions + sizes) + lens + (tail + name);
    Le16In(sig + versions + sizes, lens, tail + name, 0);
    Le16In(sig + versions + sizes, lens, tail + name, 2);
    Le16In(sig + versions + sizes, lens, tail + name, 4);
    Le16In(sig + versions + sizes, lens, tail + name, 6);
    Le16In(sig + versions + sizes, lens, tail + name, 8);
    Le32In(sig + versions + sizes + lens, tail, name, 0);
    Le32In(sig + versions + sizes + lens, tail, name, 4);
  }

  predicate EocdFits(offset: int, size: int, entries: int) { Fits32(offset) && Fits32(size) && Fits16(entries) }

  /** Section 4.3.16 of the APPNOTE. */
  function Eocd(centralDirOffset: int, centralDirSize: int, numEntries: int): (h: seq<Byte>)
    requires EocdFits(centralDirOffset, centralDirSize, numEntries)
    ensures |h| == 22 && Le32(h, 0) == 0x06054b50
    ensures Le16(h, 4) == 0 && Le16(h, 6) == 0 && Le16(h, 20) == 0
    ensures Le16(h, 8) == numEntries && Le16(h, 10) == numEntries && Le32(h, 12) == centralDirSize && Le32(h, 16) == centralDirOffset
  {
    var sig := U32(EOCD_SIG);
    var counts := U16s([0, 0, numEntries, numEntries]);
    var dir := U32s([centralDirSize, centralDirOffset]);
    var h := sig + counts + dir + U16(0);
    assert Le16(counts, 2 * 0) == 0 && Le16(counts, 2 * 1) == 0;
    assert Le16(counts, 2 * 2) == numEntries && Le16(counts, 2 * 3) == numEntries;
    assert Le32(dir, 4 * 0) == centralDirSize && Le32(dir, 4 * 1) == centralDirOffset;
    assert h == [] + sig + (counts + dir + U16(0)) && h == sig + counts + (dir + U16(0));
    Le32In([], sig, counts + dir + U16(0), 0);
    Le16In(sig, counts, dir + U16(0), 0);
    Le16In(sig, counts, dir + U16(0), 2);
    Le16In(sig, counts, dir + U16(0), 4);
    Le16In(sig, counts, dir + U16(0), 6);
    assert h == (sig + counts + dir) + U16(0) + [];
    Le16In(sig + counts + dir, U16(0), [], 0);
    Le32In(sig + counts, dir, U16(0), 0);
    Le32In(sig + counts, dir, U16(0), 4);
    h
  }

  ghost predicate LocalsFit(es: seq<Entry>) { forall i :: 0 <= i < |es| ==> LocalFits(es[i]) }

  /** The local headers and data of the first k entries. */
  ghost function LocalPart(es: seq<Entry>, k: nat): seq<Byte>
    requires k <= |es| && LocalsFit(es)
  {
    if k == 0 then [] else LocalPart(es, k - 1) + LocalFileHeader(es[k - 1]) + es[k - 1].data
  }

  ghost function LocalOffset(es: seq<Entry>, i: nat): nat
    requires i <= |es| && LocalsFit(es)
  {
    |LocalPart(es, i)|
  }

  /** The offsets of the first k entries fit their directory field. */
  ghost predicate OffsetsFit(es: seq<Entry>, k: nat)
    requires k <= |es| && LocalsFit(es)
  {
    forall i :: 0 <= i < k ==> Fits32(LocalOffset(es, i))
  }

  /** The first k directory records. */
  ghost function CentralPart(es: seq<Entry>, k: nat): seq<Byte>
    requires k <= |es| && LocalsFit(es) && OffsetsFit(es, k)
  {
    if k == 0 then [] else CentralPart(es, k - 1) + CentralDirEntry(es[k - 1], LocalOffset(es, k - 1))
  }

  /** Every field of every record fits; this is when build_zip does not raise. */
  ghost predicate ArchiveFits(es: seq<Entry>) {
    && LocalsFit(es) && OffsetsFit(es, |es|)
    && EocdFits(LocalOffset(es, |es|), |CentralPart(es, |es|)|, |es|)
  }

  ghost function ZipImage(es: seq<Entry>): seq<Byte>
    requires ArchiveFits(es)
  {
    LocalPart(es, |es|) + CentralPart(es, |es|) + Eocd(LocalOffset(es, |es|), |CentralPart(es, |es|)|, |es|)
  }

  /** Bytes the first k entries take before the directory: a header of 30, the name and the data of each. */
  ghost function LocalBytes(es: seq<Entry>, k: nat): nat
    requires k <= |es|
  {
    if k == 0 then 0 else LocalBytes(es, k - 1) + 30 + |es[k - 1].name| + |es[k - 1].data|
  }

  /** Bytes of the first k directory records. */
  ghost function CentralBytes(es: seq<Entry>, k: nat): nat
    requires k <= |es|
  {
    if k == 0 then 0 else CentralBytes(es, k - 1) + 46 + |es[k - 1].name|
  }

  /** The limits of an archive without ZIP64, as numbers a caller can check: fewer than 65536 entries, names shorter
      than 65536 bytes, and less than 4 GiB both before the directory and in it. */
  lemma ArchiveFitsExactly(es: seq<Entry>)
    ensures ArchiveFits(es) <==>
      && |es| <= 65535 && LocalBytes(es, |es|) <= 4294967295 && CentralBytes(es, |es|) <= 4294967295
      && forall i :: 0 <= i < |es| ==> |es[i].name| <= 65535 && 0 <= es[i].crc <= 4294967295
  {
    hide LocalPart, CentralPart;
    forall i | 0 <= i < |es| ensures |es[i].data| <= LocalBytes(es, |es|) { LocalBytesGrow(es, i + 1, |es|); }
    if LocalsFit(es) {
      LocalSizes(es, |es|);
      forall i | 0 <= i <= |es| ensures LocalOffset(es, i) == LocalBytes(es, i) <= LocalBytes(es, |es|) {
        LocalSizes(es, i);
        LocalBytesGrow(es, i, |es|);
      }
      if OffsetsFit(es, |es|) { CentralSizes(es, |es|); }
    }
  }

  lemma {:induction false} LocalBytesGrow(es: seq<Entry>, i: nat, k: nat)
    requires i <= k <= |es|
    ensures LocalBytes(es, i) <= LocalBytes(es, k)
  {
    if i < k { LocalBytesGrow(es, i, k - 1); }
  }

  lemma {:induction false} LocalSizes(es: seq<Entry>, k: nat)
    requires k <= |es| && LocalsFit(es)
    ensures |LocalPart(es, k)| == LocalBytes(es, k)
  {
    hide LocalFits, LocalFileHeader, Le16, Le32;
    if k > 0 { LocalSizes(es, k - 1); }
  }

  lemma {:induction false} CentralSizes(es: seq<Entry>, k: nat)
    requires k <= |es| && LocalsFit(es) && OffsetsFit(es, k)
    ensures |CentralPart(es, k)| == CentralBytes(es, k)
  {
    hide LocalFits, LocalOffset, CentralDirEntry, Le16, Le32;
    if k > 0 { CentralSizes(es, k - 1); }
  }

  datatype Record = Record(e: Entry, localOffset: int)
  datatype Built = Built(file: seq<Byte>) | StructError

  /** Writes local headers and data while collecting directory records, then the directory and its end. */
  method BuildZip(es: seq<Entry>) returns (r: Built)
    ensures r == if ArchiveFits(es) then Built(ZipImage(es)) else StructError
  {
    hide LocalPart, CentralPart, LocalFileHeader, CentralDirEntry, Eocd;
    var ok, zf, centralDirEntries := WriteLocals(es);
    if !ok { return StructError; }
    var centralDirOffset := |zf|;
    var directory: seq<Byte>;
    ok, directory := WriteDirectory(es, centralDirEntries);
    if !ok || !EocdFits(centralDirOffset, |directory|, |es|) { return StructError; }
    return Built(zf + directory + Eocd(centralDirOffset, |directory|, |es|));
  }

  ghost predicate RecordsOf(es: seq<Entry>, k: nat, records: seq<Record>)
    requires k <= |es| && LocalsFit(es)
  {
    |records| == k && forall j :: 0 <= j < k ==> records[j] == Record(es[j], LocalOffset(es, j))
  }

  method WriteLocals(es: seq<Entry>) returns (ok: bool, zf: seq<Byte>, records: seq<Record>)
    ensures ok <==> LocalsFit(es)
    ensures ok ==> zf == LocalPart(es, |es|) && RecordsOf(es, |es|, records)
  {
    hide LocalPart, LocalFileHeader;
    zf, records := [], [];
    var i := 0;
    StartLocals(es[..0]);
    while i < |es|
      invariant 0 <= i <= |es| && LocalsFit(es[..i])
      invariant zf == LocalPart(es[..i], i) && RecordsOf(es[..i], i, records)
    {
      if !LocalFits(es[i]) { return false, zf, records; }
      ExtendLocals(es[..i], es[i], records);
      assert es[..i + 1] == es[..i] + [es[i]];
      records := records + [Record(es[i], |zf|)];
      zf := zf + LocalFileHeader(es[i]) + es[i].data;
      i := i + 1;
    }
    assert es[..|es|] == es;
    ok := true;
  }

  lemma StartLocals(es: seq<Entry>)
    requires es == []
    ensures LocalPart(es, 0) == []
  {
  }

  lemma ExtendLocals(es: seq<Entry>, e: Entry, records: seq<Record>)
    requires LocalsFit(es) && LocalFits(e) && RecordsOf(es, |es|, records)
    ensures LocalsFit(es + [e])
    ensures LocalPart(es + [e], |es| + 1) == LocalPart(es, |es|) + LocalFileHeader(e) + e.data
    ensures RecordsOf(es + [e], |es| + 1, records + [Record(e, |LocalPart(es, |es|)|)])
  {
    hide LocalFileHeader, LocalFits, LocalPart, LocalOffset;
    var more := es + [e];
    assert LocalsFit(more) by { assert more[|es|] == e && forall i :: 0 <= i < |es| ==> more[i] == es[i]; }
    LastLocal(es, e);
    forall j | 0 <= j <= |es| ensures LocalOffset(more, j) == LocalOffset(es, j) { SameOffset(es, e, j); }
    assert LocalOffset(es, |es|) == |LocalPart(es, |es|)| by { SameOffset(es, e, |es|); }
  }

  lemma LastLocal(es: seq<Entry>, e: Entry)
    requires LocalsFit(es + [e]) && LocalsFit(es) && LocalFits(e)
    ensures LocalPart(es + [e], |es| + 1) == LocalPart(es, |es|) + LocalFileHeader(e) + e.data
  {
    hide LocalFileHeader, LocalFits;
    LocalPrefix(es, es + [e], |es|);
  }

  lemma SameOffset(es: seq<Entry>, e: Entry, j: nat)
    requires LocalsFit(es + [e]) && j <= |es|
    ensures LocalsFit(es) && LocalOffset(es + [e], j) == LocalOffset(es, j) == |LocalPart(es, j)|
  {
    hide LocalPart, LocalFits;
    LocalPrefix(es, es + [e], j);
  }

  lemma {:induction false} LocalPrefix(a: seq<Entry>, b: seq<Entry>, k: nat)
    requires k <= |a| <= |b| && forall i :: 0 <= i < |a| ==> a[i] == b[i]
    requires LocalsFit(b)
    ensures LocalsFit(a) && LocalPart(a, k) == LocalPart(b, k)
  {
    hide LocalFileHeader, LocalFits;
    if k > 0 { LocalPrefix(a, b, k - 1); }
  }

  method WriteDirectory(es: seq<Entry>, records: seq<Record>) returns (ok: bool, directory: seq<Byte>)
    requires LocalsFit(es) && RecordsOf(es, |es|, records)
    ensures ok <==> OffsetsFit(es, |es|)
    ensures ok ==> directory == CentralPart(es, |es|)
  {
    hide LocalPart, CentralDirEntry;
    directory := [];
    var i := 0;
    while i < |es|
      invariant 0 <= i <= |es| && OffsetsFit(es, i)
      invariant directory == CentralPart(es, i)
    {
      var rec := records[i];
      if !CentralFits(rec.e, rec.localOffset) { return false, directory; }
      directory := directory + CentralDirEntry(rec.e, rec.localOffset);
      i := i + 1;
    }
    ok := true;
  }

  // ---------------------------------------------------------------- the reader

  /** What the reader reports per entry: its name and where its raw data lies in the archive. */
  datatype Visit = Visit(name: seq<Byte>, offset: nat, size: nat)

  /** The reader's verdict and the entries it reported before giving it. */
  datatype Listing = Listing(ok: bool, visits: seq<Visit>)

  /** A seek and a read: at most n bytes, fewer at the end of the file. */
  function FdRead(file: seq<Byte>, offset: nat, n: nat): (b: seq<Byte>)
    ensures |b| <= n
  {
    if offset >= |file| then [] else if offset + n <= |file| then file[offset..offset + n] else file[offset..]
  }

  /** The last position not after i that holds the end-of-directory signature. */
  function FindEocd(tail: seq<Byte>, i: int): (at: int)
    requires -1 <= i <= |tail| - 4
    ensures -1 <= at <= i
    ensures at >= 0 ==> Le32(tail, at) == EOCD_SIG
    ensures forall j :: 0 <= j <= i && at < j ==> Le32(tail, j) != EOCD_SIG
    decreases i + 1
  {
    if i < 0 then -1 else if Le32(tail, i) == EOCD_SIG then i else FindEocd(tail, i - 1)
  }

  /** One directory record: the entry and the length of the record, or a rejection. */
  datatype Parsed = Parsed(visit: Visit, length: nat) | Rejected

  function ParseRecord(file: seq<Byte>, cd: seq<Byte>, p: nat): Parsed {
    if p + 46 > |cd| || Le32(cd, p) != CENTRAL_DIR_SIG then Rejected
    else
      var gpFlag, compMethod, compSize := Le16(cd, p + 8), Le16(cd, p + 10), Le32(cd, p + 20);
      var fnameLen, extraLen, commentLen := Le16(cd, p + 28), Le16(cd, p + 30), Le16(cd, p + 32);
      var localOffset := Le32(cd, p + 42);
      if p + 46 + fnameLen + extraLen + commentLen > |cd| then Rejected
      else if compMethod != 0 || gpFlag % 2 != 0 then Rejected
      else
        var lhdr := FdRead(file, localOffset + 26, 4);
        if |lhdr| != 4 then Rejected
        else
          Parsed(Visit(cd[p + 46..p + 46 + fnameLen], localOffset + 30 + Le16(lhdr, 0) + Le16(lhdr, 2), compSize),
                 46 + fnameLen + extraLen + commentLen)
  }

  function WalkDirectory(file: seq<Byte>, cd: seq<Byte>, p: nat, entries: nat): Listing
    decreases entries
  {
    if entries == 0 then Listing(true, [])
    else
      match ParseRecord(file, cd, p)
      case Rejected => Listing(false, [])
      case Parsed(visit, length) =>
        var rest := WalkDirectory(file, cd, p + length, entries - 1);
        Listing(rest.ok, [visit] + rest.visits)
  }

  function ListZip(file: seq<Byte>): Listing {
    if |file| < EOCD_MIN_SIZE then Listing(false, [])
    else
      var searchLen := if |file| < EOCD_SEARCH_MAX then |file| else EOCD_SEARCH_MAX;
      var tail := FdRead(file, |file| - searchLen, searchLen);
      var eocd := FindEocd(tail, searchLen - EOCD_MIN_SIZE);
      if eocd < 0 then Listing(false, [])
      else
        var totalEntries, cdSize, cdOffset := Le16(tail, eocd + 10), Le32(tail, eocd + 12), Le32(tail, eocd + 16);
        if cdOffset + cdSize > |file| then Listing(false, [])
        else WalkDirectory(file, FdRead(file, cdOffset, cdSize), 0, totalEntries)
  }

  /** The reader as it runs: a backward search, then a walk that advances through the directory. It is
      defined on every byte sequence; all its reads are inside the buffers. */
  method Lszip(file: seq<Byte>) returns (r: Listing)
    ensures r == ListZip(file)
  {
    hide Le16, Le32, ParseRecord, WalkDirectory;
    if |file| < EOCD_MIN_SIZE { return Listing(false, []); }
    var searchLen := if |file| < EOCD_SEARCH_MAX then |file| else EOCD_SEARCH_MAX;
    var tail := FdRead(file, |file| - searchLen, searchLen);
    if |tail| != searchLen { return Listing(false, []); }
    var eocdOff := SearchBackward(tail);
    if eocdOff < 0 { return Listing(false, []); }
    var totalEntries, cdSize, cdOffset := Le16(tail, eocdOff + 10), Le32(tail, eocdOff + 12), Le32(tail, eocdOff + 16);
    if cdOffset + cdSize > |file| { return Listing(false, []); }
    var cd := FdRead(file, cdOffset, cdSize);
    if |cd| != cdSize { return Listing(false, []); }
    r := WalkForward(file, cd, totalEntries);
  }

  method SearchBackward(tail: seq<Byte>) returns (eocdOff: int)
    requires |tail| >= EOCD_MIN_SIZE
    ensures eocdOff == FindEocd(tail, |tail| - EOCD_MIN_SIZE)
  {
    hide Le32;
    eocdOff := -1;
    var i := |tail| - EOCD_MIN_SIZE;
    while i >= 0
      invariant -1 <= i <= |tail| - EOCD_MIN_SIZE && eocdOff == -1
      invariant FindEocd(tail, i) == FindEocd(tail, |tail| - EOCD_MIN_SIZE)
    {
      if Le32(tail, i) == EOCD_SIG {
        eocdOff := i;
        break;
      }
      i := i - 1;
    }
  }

  method WalkForward(file: seq<Byte>, cd: seq<Byte>, totalEntries: nat) returns (r: Listing)
    ensures r == WalkDirectory(file, cd, 0, totalEntries)
  {
    hide ParseRecord;
    r := Listing(true, []);
    var p: nat := 0;
    ghost var all := WalkDirectory(file, cd, 0, totalEntries);
    for k := 0 to totalEntries
      invariant r.ok
      invariant After(r.visits, WalkDirectory(file, cd, p, totalEntries - k)) == all
    {
      var parsed := ParseRecord(file, cd, p);
      if parsed.Rejected? { return Listing(false, r.visits); }
      assert r.visits + [parsed.visit] + WalkDirectory(file, cd, p + parsed.length, totalEntries - k - 1).visits
          == r.visits + WalkDirectory(file, cd, p, totalEntries - k).visits;
      r := Listing(true, r.visits + [parsed.visit]);
      p := p + parsed.length;
    }
  }

  ghost function After(seen: seq<Visit>, rest: Listing): Listing { Listing(rest.ok, seen + rest.visits) }

  // ---------------------------------------------------------------- what the reader accepts

  /** A four-byte mark stands at a position. */
  predicate MarkAt(b: seq<Byte>, i: int, mark: seq<int>) {
    && |mark| == 4 && 0 <= i && i + 4 <= |b|
    && b[i] as int == mark[0] && b[i + 1] as int == mark[1] && b[i + 2] as int == mark[2] && b[i + 3] as int == mark[3]
  }

  const CENTRAL_MARK: seq<int> := [0x50, 0x4B, 0x01, 0x02]
  const END_MARK: seq<int> := [0x50, 0x4B, 0x05, 0x06]

  lemma MarkIsSignature(b: seq<Byte>, i: nat)
    requires i + 4 <= |b|
    ensures MarkAt(b, i, CENTRAL_MARK) <==> Le32(b, i) == 0x02014b50
    ensures MarkAt(b, i, END_MARK) <==> Le32(b, i) == 0x06054b50
  {
    FourDigits(b[i] as int, b[i + 1] as int, b[i + 2] as int, b[i + 3] as int);
  }

  /** The record of v stands at p of the directory and ends at next: stored, not encrypted, inside the directory,
      and with a local header in the file to skip. */
  predicate RecordAt(file: seq<Byte>, cd: seq<Byte>, p: nat, v: Visit, next: nat) {
    && p + 46 <= |cd| && MarkAt(cd, p, CENTRAL_MARK) && next <= |cd|
    && next == p + 46 + Le16(cd, p + 28) + Le16(cd, p + 30) + Le16(cd, p + 32)
    && Le16(cd, p + 10) == 0 && cd[p + 8] % 2 == 0
    && Le32(cd, p + 42) + 30 <= |file|
    && v.name == cd[p + 46..p + 46 + Le16(cd, p + 28)] && v.size == Le32(cd, p + 20)
    && v.offset == Le32(cd, p + 42) + 30 + Le16(file, Le32(cd, p + 42) + 26) + Le16(file, Le32(cd, p + 42) + 28)
  }

  lemma RecordParses(file: seq<Byte>, cd: seq<Byte>, p: nat)
    ensures match ParseRecord(file, cd, p)
      case Parsed(v, length) => RecordAt(file, cd, p, v, p + length)
      case Rejected => forall v, next :: !RecordAt(file, cd, p, v, next)
  {
    if p + 46 <= |cd| {
      MarkIsSignature(cd, p);
      EvenFlag(cd, p + 8);
      HeaderBytes(file, Le32(cd, p + 42));
      hide Le16, Le32, MarkAt, FdRead;
    }
  }

  lemma EvenFlag(b: seq<Byte>, at: nat)
    requires at + 2 <= |b|
    ensures Le16(b, at) % 2 == (b[at] as int) % 2
  {
  }

  lemma HeaderBytes(file: seq<Byte>, at: nat)
    ensures |FdRead(file, at + 26, 4)| == 4 <==> at + 30 <= |file|
    ensures at + 30 <= |file| ==> Le16(FdRead(file, at + 26, 4), 0) == Le16(file, at + 26) && Le16(FdRead(file, at + 26, 4), 2) == Le16(file, at + 28)
  {
  }

  /** Records stand one after the other at these positions. */
  ghost predicate RecordsAt(file: seq<Byte>, cd: seq<Byte>, ps: seq<nat>, visits: seq<Visit>) {
    |ps| == |visits| + 1 && forall i :: 0 <= i < |visits| ==> RecordAt(file, cd, ps[i], visits[i], ps[i + 1])
  }

  lemma {:induction false} WalkAccepts(file: seq<Byte>, cd: seq<Byte>, p: nat, entries: nat) returns (ps: seq<nat>)
    ensures var r := WalkDirectory(file, cd, p, entries);
      r.ok ==> |r.visits| == entries && |ps| > 0 && ps[0] == p && RecordsAt(file, cd, ps, r.visits)
    decreases entries
  {
    hide ParseRecord, RecordAt;
    ps := [p];
    if entries > 0 {
      RecordParses(file, cd, p);
      match ParseRecord(file, cd, p) {
        case Rejected =>
        case Parsed(visit, length) =>
          var rest := WalkAccepts(file, cd, p + length, entries - 1);
          ps := [p] + rest;
      }
    }
  }

  lemma {:induction false} WalkRejects(file: seq<Byte>, cd: seq<Byte>, p: nat, entries: nat, ps: seq<nat>, visits: seq<Visit>)
    requires |visits| == entries && |ps| > 0 && ps[0] == p && RecordsAt(file, cd, ps, visits)
    ensures WalkDirectory(file, cd, p, entries) == Listing(true, visits)
    decreases entries
  {
    hide ParseRecord, RecordAt;
    if entries > 0 {
      RecordParses(file, cd, p);
      assert RecordAt(file, cd, ps[0], visits[0], ps[1]);
      RecordIsDetermined(file, cd, p, visits[0], ps[1]);
      RecordsAfter(file, cd, ps, visits);
      WalkRejects(file, cd, ps[1], entries - 1, ps[1..], visits[1..]);
      assert visits == [visits[0]] + visits[1..];
    }
  }

  lemma RecordsAfter(file: seq<Byte>, cd: seq<Byte>, ps: seq<nat>, visits: seq<Visit>)
    requires RecordsAt(file, cd, ps, visits) && visits != []
    ensures RecordsAt(file, cd, ps[1..], visits[1..])
  {
    hide RecordAt;
    forall i | 0 <= i < |visits[1..]| ensures RecordAt(file, cd, ps[1..][i], visits[1..][i], ps[1..][i + 1]) {
      assert RecordAt(file, cd, ps[i + 1], visits[i + 1], ps[i + 1 + 1]);
    }
  }

  lemma RecordIsDetermined(file: seq<Byte>, cd: seq<Byte>, p: nat, v: Visit, next: nat)
    requires RecordAt(file, cd, p, v, next)
    ensures ParseRecord(file, cd, p) == Parsed(v, next - p)
  {
    RecordParses(file, cd, p);
    hide MarkAt, ParseRecord;
  }

  /** The last end mark that can stand before 22 more bytes, among the last 65558 bytes of the file. */
  ghost predicate EndAt(file: seq<Byte>, at: int) {
    && |file| - 65558 <= at <= |file| - 22 && MarkAt(file, at, END_MARK)
    && forall i :: at < i <= |file| - 22 ==> !MarkAt(file, i, END_MARK)
  }

  /** What a listed archive looks like. */
  ghost predicate IsListing(file: seq<Byte>, at: int, ps: seq<nat>, visits: seq<Visit>) {
    && EndAt(file, at) && Le16(file, at + 10) == |visits|
    && Le32(file, at + 16) + Le32(file, at + 12) <= |file|
    && |ps| > 0 && ps[0] == 0
    && RecordsAt(file, file[Le32(file, at + 16)..Le32(file, at + 16) + Le32(file, at + 12)], ps, visits)
  }

  /** On any bytes at all: the reader succeeds with these entries exactly when the bytes end in a directory that
      holds their records one after the other. */
  lemma ListExactly(file: seq<Byte>, visits: seq<Visit>)
    ensures ListZip(file) == Listing(true, visits) <==> exists at, ps :: IsListing(file, at, ps, visits)
  {
    hide Le16, Le32, MarkAt, WalkDirectory, FindEocd, RecordsAt;
    var at := EndFound(file);
    if at >= 0 {
      var dir, size := Le32(file, at + 16), Le32(file, at + 12);
      if dir + size <= |file| {
        var cd := FdRead(file, dir, size);
        assert cd == file[dir..dir + size];
        var ps := WalkAccepts(file, cd, 0, Le16(file, at + 10));
        if ListZip(file) == Listing(true, visits) { assert IsListing(file, at, ps, visits); }
        forall at', ps' | IsListing(file, at', ps', visits) ensures ListZip(file) == Listing(true, visits) {
          assert at' == at by { LastEnd(file, at, at'); }
          WalkRejects(file, cd, 0, |visits|, ps', visits);
        }
      } else {
        forall at', ps' ensures !IsListing(file, at', ps', visits) { LastEnd(file, at, at'); }
      }
    }
  }

  lemma LastEnd(file: seq<Byte>, at: int, at': int)
    ensures EndAt(file, at) && EndAt(file, at') ==> at == at'
  {
    hide MarkAt;
  }

  /** What follows once the end record is found. */
  function ListFrom(file: seq<Byte>, at: nat): Listing
    requires at + 22 <= |file|
  {
    if Le32(file, at + 16) + Le32(file, at + 12) > |file| then Listing(false, [])
    else WalkDirectory(file, FdRead(file, Le32(file, at + 16), Le32(file, at + 12)), 0, Le16(file, at + 10))
  }

  function SearchLen(file: seq<Byte>): (n: nat)
    ensures n == if |file| < 65558 then |file| else 65558
  {
    if |file| < EOCD_SEARCH_MAX then |file| else EOCD_SEARCH_MAX
  }

  /** Where the backward search ends, in the file. */
  lemma EndFound(file: seq<Byte>) returns (at: int)
    ensures at >= 0 ==> EndAt(file, at) && at + 22 <= |file| && ListZip(file) == ListFrom(file, at)
    ensures at < 0 ==> !ListZip(file).ok && forall i :: !EndAt(file, i)
  {
    at := -1;
    if |file| >= 22 {
      hide *;
      var from := |file| - SearchLen(file);
      var tail := FdRead(file, from, |file| - from);
      var found := EndOfTail(file, tail, from);
      if found >= 0 { at := from + found; }
    } else {
      TooShort(file);
    }
  }

  lemma EndOfTail(file: seq<Byte>, tail: seq<Byte>, from: nat) returns (found: int)
    requires |file| >= 22 && from == |file| - SearchLen(file) && tail == FdRead(file, from, |file| - from)
    ensures found >= 0 ==> EndAt(file, from + found) && from + found + 22 <= |file| && ListZip(file) == ListFrom(file, from + found)
    ensures found < 0 ==> ListZip(file) == Listing(false, []) && forall i :: !EndAt(file, i)
  {
    hide *;
    TailOfFile(file, tail, from);
    found := FindEocd(tail, |tail| - 22);
    EndInTail(file, tail, from, found);
    ListOfTail(file, tail, from, found);
  }

  lemma TooShort(file: seq<Byte>)
    requires |file| < 22
    ensures !ListZip(file).ok && forall i :: !EndAt(file, i)
  {
  }

  lemma ListOfTail(file: seq<Byte>, tail: seq<Byte>, from: nat, found: int)
    requires |file| >= 22 && from == |file| - SearchLen(file) && tail == FdRead(file, from, |file| - from)
    requires |tail| == SearchLen(file) && found == FindEocd(tail, |tail| - 22)
    requires forall k :: 0 <= k < |tail| ==> tail[k] == file[from + k]
    ensures found < 0 ==> ListZip(file) == Listing(false, [])
    ensures found >= 0 ==> ListZip(file) == ListFrom(file, from + found)
  {
    hide WalkDirectory, FindEocd, Le16, Le32, FdRead;
    if found >= 0 {
      SameField16(tail, file, found + 10, from);
      SameField32(tail, file, found + 12, from);
      SameField32(tail, file, found + 16, from);
    }
  }

  lemma TailOfFile(file: seq<Byte>, tail: seq<Byte>, from: nat)
    requires from <= |file| && tail == FdRead(file, from, |file| - from)
    ensures |tail| == |file| - from && forall k :: 0 <= k < |tail| ==> tail[k] == file[from + k]
  {
  }

  lemma SameField16(tail: seq<Byte>, file: seq<Byte>, i: nat, from: nat)
    requires i + 2 <= |tail| && from + |tail| == |file| && forall k :: 0 <= k < |tail| ==> tail[k] == file[from + k]
    ensures Le16(tail, i) == Le16(file, from + i)
  {
  }

  lemma SameField32(tail: seq<Byte>, file: seq<Byte>, i: nat, from: nat)
    requires i + 4 <= |tail| && from + |tail| == |file| && forall k :: 0 <= k < |tail| ==> tail[k] == file[from + k]
    ensures Le32(tail, i) == Le32(file, from + i)
  {
  }

  lemma EndInTail(file: seq<Byte>, tail: seq<Byte>, from: nat, found: int)
    requires |tail| >= 22 && from + |tail| == |file| && forall k :: 0 <= k < |tail| ==> tail[k] == file[from + k]
    requires |tail| == if |file| < 65558 then |file| else 65558
    requires found == FindEocd(tail, |tail| - 22)
    ensures found >= 0 ==> EndAt(file, from + found)
    ensures found < 0 ==> forall i :: !EndAt(file, i)
  {
    hide FindEocd, Le32;
    forall i: nat | i + 4 <= |tail| ensures MarkAt(file, from + i, END_MARK) <==> Le32(tail, i) == 0x06054b50 {
      MarkIsSignature(tail, i);
      assert MarkAt(file, from + i, END_MARK) <==> MarkAt(tail, i, END_MARK);
    }
    forall i | from + found < i <= |file| - 22 && i >= from ensures !MarkAt(file, i, END_MARK) {
      var j: nat := i - from;
      assert MarkAt(file, from + j, END_MARK) <==> Le32(tail, j) == 0x06054b50;
    }
  }

  // ---------------------------------------------------------------- the reader inverts the writer

  ghost function VisitOf(es: seq<Entry>, i: nat): Visit
    requires i < |es| && LocalsFit(es)
  {
    Visit(es[i].name, LocalOffset(es, i) + 30 + |es[i].name|, |es[i].data|)
  }

  /** For every archive that can be written, reading succeeds and reports exactly the entries, in order,
      and each reported range holds that entry's data. */
  lemma ListInvertsBuild(es: seq<Entry>)
    requires ArchiveFits(es)
    ensures var r := ListZip(ZipImage(es));
      && r.ok && |r.visits| == |es|
      && forall i :: 0 <= i < |es| ==>
           r.visits[i] == VisitOf(es, i) && DataAt(ZipImage(es), r.visits[i]) == es[i].data
  {
    hide LocalPart, CentralPart, Eocd, WalkDirectory, LocalFits, Le16, Le32, FindEocd, VisitOf;
    var lp, cp := LocalPart(es, |es|), CentralPart(es, |es|);
    var file := ZipImage(es);
    EocdFound(lp + cp, Eocd(|lp|, |cp|, |es|));
    assert file[|lp|..|lp| + |cp|] == cp;
    StartDirectory(es);
    WalkReadsAll(es, file, 0);
    forall i | 0 <= i < |es| ensures DataAt(file, VisitOf(es, i)) == es[i].data { DataInPlace(es, file, i); }
  }

  ghost function DataAt(file: seq<Byte>, v: Visit): seq<Byte> { FdRead(file, v.offset, v.size) }

  lemma StartDirectory(es: seq<Entry>)
    requires LocalsFit(es)
    ensures OffsetsFit(es, 0) && CentralPart(es, 0) == []
  {
  }

  /** The backward search stops at once: the writer's record is the last thing in the file. */
  lemma EocdFound(front: seq<Byte>, end: seq<Byte>)
    requires |end| == EOCD_MIN_SIZE && Le32(end, 0) == EOCD_SIG
    ensures var file := front + end;
      var searchLen := if |file| < EOCD_SEARCH_MAX then |file| else EOCD_SEARCH_MAX;
      var tail := FdRead(file, |file| - searchLen, searchLen);
      && |tail| == searchLen && FindEocd(tail, searchLen - EOCD_MIN_SIZE) == searchLen - EOCD_MIN_SIZE
      && Le16(tail, searchLen - 12) == Le16(end, 10) && Le32(tail, searchLen - 10) == Le32(end, 12)
      && Le32(tail, searchLen - 6) == Le32(end, 16)
  {
    var file := front + end;
    var searchLen := if |file| < EOCD_SEARCH_MAX then |file| else EOCD_SEARCH_MAX;
    var tail := FdRead(file, |file| - searchLen, searchLen);
    var head := file[|file| - searchLen..|front|];
    assert tail == head + end + [];
    Le32In(head, end, [], 0);
    Le16In(head, end, [], 10);
    Le32In(head, end, [], 12);
    Le32In(head, end, [], 16);
  }

  lemma {:induction false} LocalGrows(es: seq<Entry>, i: nat, n: nat)
    requires LocalsFit(es) && i <= n <= |es|
    ensures LocalPart(es, i) <= LocalPart(es, n)
  {
    hide LocalFileHeader, LocalFits;
    if i < n { LocalGrows(es, i, n - 1); }
  }

  /** Entry i's local header and data lie at its offset. */
  lemma LocalInPlace(es: seq<Entry>, file: seq<Byte>, i: nat)
    requires LocalsFit(es) && i < |es| && LocalPart(es, |es|) <= file
    ensures LocalPart(es, i) + LocalFileHeader(es[i]) + es[i].data <= file
  {
    hide LocalFileHeader, LocalFits, LocalPart;
    LocalGrows(es, i + 1, |es|);
    LocalStep(es, i);
  }

  lemma LocalStep(es: seq<Entry>, i: nat)
    requires LocalsFit(es) && i < |es|
    ensures LocalPart(es, i + 1) == LocalPart(es, i) + LocalFileHeader(es[i]) + es[i].data
  {
    hide LocalFileHeader, LocalFits;
  }

  lemma DataInPlace(es: seq<Entry>, file: seq<Byte>, i: nat)
    requires LocalsFit(es) && i < |es| && LocalPart(es, |es|) <= file
    ensures DataAt(file, VisitOf(es, i)) == es[i].data
    ensures var lhdr := FdRead(file, LocalOffset(es, i) + 26, 4);
      |lhdr| == 4 && Le16(lhdr, 0) == |es[i].name| && Le16(lhdr, 2) == 0
  {
    hide LocalPart, LocalFileHeader, LocalFits, Le16, Le32, FdRead;
    LocalInPlace(es, file, i);
    ReadAfter(file, LocalPart(es, i), LocalFileHeader(es[i]), es[i].data);
  }

  /** Reading a header's two length fields, and what follows the header. */
  lemma ReadAfter(file: seq<Byte>, front: seq<Byte>, h: seq<Byte>, data: seq<Byte>)
    requires |h| >= 30 && front + h + data <= file
    ensures FdRead(file, |front| + |h|, |data|) == data
    ensures var lhdr := FdRead(file, |front| + 26, 4);
      |lhdr| == 4 && Le16(lhdr, 0) == Le16(h, 26) && Le16(lhdr, 2) == Le16(h, 28)
  {
    var whole := front + h + data;
    assert file[|front| + |h|..|whole|] == whole[|front| + |h|..] == data;
    var lhdr := file[|front| + 26..|front| + 30];
    assert forall k :: 0 <= k < 4 ==> lhdr[k] == whole[|front| + 26 + k] == h[26 + k];
  }

  lemma {:induction false} CentralGrows(es: seq<Entry>, i: nat, n: nat)
    requires LocalsFit(es) && OffsetsFit(es, |es|) && i <= n <= |es|
    ensures CentralPart(es, i) <= CentralPart(es, n)
  {
    hide LocalPart, CentralDirEntry, LocalFits;
    if i < n { CentralGrows(es, i, n - 1); }
  }

  /** Record i lies at its place in the directory. */
  lemma RecordInPlace(es: seq<Entry>, i: nat)
    requires LocalsFit(es) && OffsetsFit(es, |es|) && i < |es|
    ensures var rec := CentralDirEntry(es[i], LocalOffset(es, i));
      CentralPart(es, i + 1) == CentralPart(es, i) + rec && CentralPart(es, i) + rec <= CentralPart(es, |es|)
  {
    hide LocalPart, CentralDirEntry, LocalFits;
    CentralGrows(es, i + 1, |es|);
  }

  lemma RecordParsed(es: seq<Entry>, file: seq<Byte>, i: nat)
    requires LocalsFit(es) && OffsetsFit(es, |es|) && i < |es| && LocalPart(es, |es|) <= file
    ensures var cd := CentralPart(es, |es|);
      && ParseRecord(file, cd, |CentralPart(es, i)|) == Parsed(VisitOf(es, i), 46 + |es[i].name|)
      && |CentralPart(es, i + 1)| == |CentralPart(es, i)| + 46 + |es[i].name|
  {
    hide LocalPart, CentralPart, CentralDirEntry, FdRead, LocalFits, Le16, Le32;
    RecordInPlace(es, i);
    DataInPlace(es, file, i);
    RecordFields(CentralPart(es, |es|), CentralPart(es, i), CentralDirEntry(es[i], LocalOffset(es, i)));
  }

  /** A record read through the directory buffer is the record. */
  lemma RecordFields(cd: seq<Byte>, front: seq<Byte>, rec: seq<Byte>)
    requires |rec| >= 46 && front + rec <= cd
    ensures var p := |front|;
      && Le32(cd, p) == Le32(rec, 0) && Le16(cd, p + 8) == Le16(rec, 8) && Le16(cd, p + 10) == Le16(rec, 10)
      && Le32(cd, p + 20) == Le32(rec, 20) && Le16(cd, p + 28) == Le16(rec, 28) && Le16(cd, p + 30) == Le16(rec, 30)
      && Le16(cd, p + 32) == Le16(rec, 32) && Le32(cd, p + 42) == Le32(rec, 42)
      && cd[p + 46..p + |rec|] == rec[46..]
  {
    var p := |front|;
    var whole := front + rec;
    assert forall k :: 0 <= k < |rec| ==> cd[p + k] == whole[p + k] == rec[k];
  }

  lemma {:induction false} WalkReadsAll(es: seq<Entry>, file: seq<Byte>, i: nat)
    requires LocalsFit(es) && OffsetsFit(es, |es|) && i <= |es| && LocalPart(es, |es|) <= file
    ensures var r := WalkDirectory(file, CentralPart(es, |es|), |CentralPart(es, i)|, |es| - i);
      && r.ok && |r.visits| == |es| - i
      && forall j :: i <= j < |es| ==> r.visits[j - i] == VisitOf(es, j)
    decreases |es| - i
  {
    hide LocalPart, CentralPart, ParseRecord, VisitOf, LocalFits;
    if i < |es| {
      RecordParsed(es, file, i);
      WalkReadsAll(es, file, i + 1);
    }
  }
}
