/** One AKS2 image: a header, then a compressed directory and the kernel binaries it points at. The build
    writes it, the run-time reader parses it and looks kernels up by name. Compression is a parameter. */
module Aks2 {
  import opened Bytes
  import opened CStrings
  import opened FlatZip

  const MAGIC: seq<Byte> := [0x41, 0x4B, 0x53, 0x32]
  const HEADER_SIZE := 16
  const METADATA_SIZE := 20

  /** The launch facts the compiler writes beside a binary. */
  datatype Json = Json(shared: int, numWarps: int, warpSize: int, complete: bool)

  /** A binary to pack: its entry name, its bytes (none when compilation failed) and its side file. */
  datatype Source = Source(name: seq<Byte>, blob: seq<Byte>, json: Json)

  datatype DirectoryEntry = DirectoryEntry(sharedMemorySize: int, blockThreads: int, offset: int,
                                           imageSize: int, filenameLength: int, filename: seq<Byte>)

  // ---------------------------------------------------------------- the writer

  /** load_hsaco asserts that a binary without bytes is not marked as compiled. */
  predicate Loads(s: Source, ignoreJson: bool) { ignoreJson || s.blob != [] || !s.json.complete }

  function LoadHsaco(s: Source, offset: int, ignoreJson: bool): DirectoryEntry {
    var known := !ignoreJson && s.blob != [];
    DirectoryEntry(if known then s.json.shared else 0, if known then s.json.numWarps * s.json.warpSize else 0,
                   offset, |s.blob|, |s.name| + 1, s.name)
  }

  /** What a directory entry says: without bytes or without the side file there are no launch numbers. */
  predicate EntryTells(e: DirectoryEntry, s: Source, offset: int, ignoreJson: bool) {
    && e.filename == s.name && e.filenameLength == |s.name| + 1 && e.offset == offset && e.imageSize == |s.blob|
    && (if ignoreJson || s.blob == [] then e.sharedMemorySize == 0 && e.blockThreads == 0
        else e.sharedMemorySize == s.json.shared && e.blockThreads == s.json.numWarps * s.json.warpSize)
  }

  function EntrySize(e: DirectoryEntry): int { e.filenameLength + METADATA_SIZE }

  /** val.to_bytes(4) raises for a value that does not fit. */
  predicate EntryFits(e: DirectoryEntry) {
    && Fits32(e.sharedMemorySize) && Fits32(e.blockThreads) && Fits32(e.offset)
    && Fits32(e.imageSize) && Fits32(e.filenameLength)
  }

  function Metadata(e: DirectoryEntry): (b: seq<Byte>)
    requires EntryFits(e)
    ensures |b| == 20
    ensures Le32(b, 0) == e.sharedMemorySize && Le32(b, 4) == e.blockThreads && Le32(b, 8) == e.offset
    ensures Le32(b, 12) == e.imageSize && Le32(b, 16) == e.filenameLength
  {
    var b := U32s([e.sharedMemorySize, e.blockThreads, e.offset, e.imageSize, e.filenameLength]);
    assert Le32(b, 4 * 0) == e.sharedMemorySize && Le32(b, 4 * 1) == e.blockThreads && Le32(b, 4 * 2) == e.offset;
    assert Le32(b, 4 * 3) == e.imageSize && Le32(b, 4 * 4) == e.filenameLength;
    b
  }

  function DirectoryEntryBlob(e: DirectoryEntry): seq<Byte>
    requires EntryFits(e)
  {
    Metadata(e) + e.filename + [0]
  }

  /** The binaries of the first k sources, one after the other. */
  ghost function BlobPart(ss: seq<Source>, k: nat): seq<Byte>
    requires k <= |ss|
  {
    if k == 0 then [] else BlobPart(ss, k - 1) + ss[k - 1].blob
  }

  /** The directory that packs ss: each entry's offset is where its binary starts among all of them. */
  ghost function DirectoryOf(ss: seq<Source>, ignoreJson: bool): (es: seq<DirectoryEntry>)
    ensures |es| == |ss|
  {
    seq(|ss|, i requires 0 <= i < |ss| => LoadHsaco(ss[i], |BlobPart(ss, i)|, ignoreJson))
  }

  ghost predicate EntriesFit(es: seq<DirectoryEntry>) { forall i :: 0 <= i < |es| ==> EntryFits(es[i]) }

  /** The first k directory entries as bytes. */
  ghost function DirectoryPart(es: seq<DirectoryEntry>, k: nat): seq<Byte>
    requires k <= |es| && EntriesFit(es)
  {
    if k == 0 then [] else DirectoryPart(es, k - 1) + DirectoryEntryBlob(es[k - 1])
  }

  ghost predicate ImageFits(ss: seq<Source>, ignoreJson: bool) {
    var es := DirectoryOf(ss, ignoreJson);
    && EntriesFit(es) && Fits32(|ss|) && Fits32(|DirectoryPart(es, |es|)| + |BlobPart(ss, |ss|)|)
  }

  ghost function Content(ss: seq<Source>, ignoreJson: bool): seq<Byte>
    requires ImageFits(ss, ignoreJson)
  {
    var es := DirectoryOf(ss, ignoreJson);
    DirectoryPart(es, |es|) + BlobPart(ss, |ss|)
  }

  function Header(total: int, kernels: int, directory: int): (h: seq<Byte>)
    requires Fits32(total) && Fits32(kernels) && Fits32(directory)
    ensures |h| == 16 && h[..4] == [0x41, 0x4B, 0x53, 0x32]
    ensures Le32(h, 4) == total && Le32(h, 8) == kernels && Le32(h, 12) == directory
  {
    var fields := U32s([total, kernels, directory]);
    assert Le32(fields, 4 * 0) == total && Le32(fields, 4 * 1) == kernels && Le32(fields, 4 * 2) == directory;
    Le32In(MAGIC, fields, [], 0);
    Le32In(MAGIC, fields, [], 4);
    Le32In(MAGIC, fields, [], 8);
    assert MAGIC + fields + [] == MAGIC + fields;
    MAGIC + fields
  }

  type Compressor = seq<Byte> -> seq<Byte>
  type Decompressor = seq<Byte> -> Unpacked
  datatype Unpacked = Unpacked(bytes: seq<Byte>) | Broken

  /** The image the build is meant to write for ss. */
  ghost function AksImage(ss: seq<Source>, ignoreJson: bool, compress: Compressor): seq<Byte>
    requires ImageFits(ss, ignoreJson)
  {
    var es := DirectoryOf(ss, ignoreJson);
    Header(|Content(ss, ignoreJson)|, |ss|, |DirectoryPart(es, |es|)|) + compress(Content(ss, ignoreJson))
  }

  datatype Written = Written(file: seq<Byte>) | OverflowError

  class Aks2Writer {
    var totalUncompressedSize: int
    var numberOfKernels: int
    var directorySize: int
    var directory: seq<DirectoryEntry>
    var hsacoBlobs: seq<seq<Byte>>
    var currentOffset: int

    constructor ()
      ensures directory == [] && hsacoBlobs == [] && currentOffset == 0
    {
      totalUncompressedSize, numberOfKernels, directorySize := 0, 0, 0;
      directory, hsacoBlobs, currentOffset := [], [], 0;
    }

    /** Loading into a new writer either fails on a source that does not load, or describes exactly ss. */
    method Load(ss: seq<Source>, ignoreJson: bool) returns (ok: bool)
      requires directory == [] && hsacoBlobs == [] && currentOffset == 0
      modifies this
      ensures ok <==> ignoreJson || forall i :: 0 <= i < |ss| && ss[i].blob == [] ==> !ss[i].json.complete
      ensures ok ==> Describes(ss, ignoreJson)
      ensures ok ==> |directory| == |ss| && forall i :: 0 <= i < |ss| ==> EntryTells(directory[i], ss[i], |BlobPart(ss, i)|, ignoreJson)
    {
      forall i | 0 <= i < |ss| ensures EntryTells(LoadHsaco(ss[i], |BlobPart(ss, i)|, ignoreJson), ss[i], |BlobPart(ss, i)|, ignoreJson) {
        LoadedFields(ss[i], |BlobPart(ss, i)|, ignoreJson);
      }
      hide LoadHsaco, BlobPart, Sizes, EntryTells;
      numberOfKernels := |ss|;
      ok := LoadAll(ss, ignoreJson);
      if !ok { return; }
      directorySize := SumOfSizes();
      var blobBytes := SumOfBlobs(ss);
      totalUncompressedSize := directorySize + blobBytes;
    }

    method LoadAll(ss: seq<Source>, ignoreJson: bool) returns (ok: bool)
      requires directory == [] && hsacoBlobs == [] && currentOffset == 0
      modifies `directory, `hsacoBlobs, `currentOffset
      ensures ok <==> forall i :: 0 <= i < |ss| ==> Loads(ss[i], ignoreJson)
      ensures ok ==> directory == DirectoryOf(ss, ignoreJson)
      ensures ok ==> |hsacoBlobs| == |ss| && forall j :: 0 <= j < |ss| ==> hsacoBlobs[j] == ss[j].blob
    {
      hide LoadHsaco, Loads, BlobPart, DirectoryOf;
      NoBlobs(ss);
      var i := 0;
      while i < |ss|
        invariant 0 <= i <= |ss| && |directory| == |hsacoBlobs| == i
        invariant forall j :: 0 <= j < i ==> Loads(ss[j], ignoreJson)
        invariant forall j :: 0 <= j < i ==> hsacoBlobs[j] == ss[j].blob
        invariant EntriesOf(ss, ignoreJson, directory)
        invariant currentOffset == |BlobPart(ss, i)|
      {
        if !Loads(ss[i], ignoreJson) { return false; }
        BlobStep(ss, i);
        OneMoreEntry(ss, ignoreJson, directory);
        directory := directory + [LoadHsaco(ss[i], currentOffset, ignoreJson)];
        hsacoBlobs := hsacoBlobs + [ss[i].blob];
        currentOffset := currentOffset + |ss[i].blob|;
        i := i + 1;
      }
      AllEntries(ss, ignoreJson, directory);
      return true;
    }

    method SumOfBlobs(ghost ss: seq<Source>) returns (n: int)
      requires |hsacoBlobs| == |ss| && forall j :: 0 <= j < |ss| ==> hsacoBlobs[j] == ss[j].blob
      ensures n == |BlobPart(ss, |ss|)|
    {
      n := 0;
      for i := 0 to |hsacoBlobs|
        invariant n == |BlobPart(ss, i)|
      {
        n := n + |hsacoBlobs[i]|;
      }
    }

    ghost predicate Describes(ss: seq<Source>, ignoreJson: bool)
      reads this
    {
      && numberOfKernels == |ss| && directory == DirectoryOf(ss, ignoreJson)
      && |hsacoBlobs| == |ss| && (forall j :: 0 <= j < |ss| ==> hsacoBlobs[j] == ss[j].blob)
      && directorySize == Sizes(directory, |directory|)
      && totalUncompressedSize == directorySize + |BlobPart(ss, |ss|)|
    }

    method SumOfSizes() returns (n: int)
      ensures n == Sizes(directory, |directory|)
    {
      n := 0;
      for i := 0 to |directory|
        invariant n == Sizes(directory, i)
      {
        n := n + EntrySize(directory[i]);
      }
    }

    /** A loaded writer writes the image of its sources, or raises when some number needs more than 32 bits. */
    method Write(compress: Compressor, ghost ss: seq<Source>, ghost ignoreJson: bool) returns (r: Written)
      requires Describes(ss, ignoreJson)
      ensures r == if ImageFits(ss, ignoreJson) then Written(AksImage(ss, ignoreJson, compress)) else OverflowError
    {
      hide DirectoryOf, DirectoryPart, BlobPart, EntryFits, Sizes, Header;
      NameLengths(ss, ignoreJson);
      if EntriesFit(directory) { SizesAreBytes(directory, |directory|); }
      if !Fits32(totalUncompressedSize) || !Fits32(numberOfKernels) || !Fits32(directorySize) { return OverflowError; }
      var fits, entryBytes := EntryBlobs();
      if !fits { return OverflowError; }
      var content := Blobs(entryBytes, ss);
      return Written(Header(totalUncompressedSize, numberOfKernels, directorySize) + compress(content));
    }

    method EntryBlobs() returns (fits: bool, content: seq<Byte>)
      ensures fits <==> EntriesFit(directory)
      ensures fits ==> content == DirectoryPart(directory, |directory|)
    {
      hide DirectoryEntryBlob, EntryFits;
      content := [];
      var i := 0;
      while i < |directory|
        invariant 0 <= i <= |directory| && forall j :: 0 <= j < i ==> EntryFits(directory[j])
        invariant EntriesFit(directory) ==> content == DirectoryPart(directory, i)
      {
        if !EntryFits(directory[i]) { return false, content; }
        content := content + DirectoryEntryBlob(directory[i]);
        i := i + 1;
      }
      return true, content;
    }

    method Blobs(front: seq<Byte>, ghost ss: seq<Source>) returns (content: seq<Byte>)
      requires |hsacoBlobs| == |ss| && forall j :: 0 <= j < |ss| ==> hsacoBlobs[j] == ss[j].blob
      ensures content == front + BlobPart(ss, |ss|)
    {
      content := front;
      for i := 0 to |hsacoBlobs|
        invariant content == front + BlobPart(ss, i)
      {
        content := content + hsacoBlobs[i];
      }
    }
  }

  /** The first entries of the directory for ss. */
  ghost predicate EntriesOf(ss: seq<Source>, ignoreJson: bool, es: seq<DirectoryEntry>) {
    |es| <= |ss| && forall j :: 0 <= j < |es| ==> es[j] == LoadHsaco(ss[j], |BlobPart(ss, j)|, ignoreJson)
  }

  lemma OneMoreEntry(ss: seq<Source>, ignoreJson: bool, es: seq<DirectoryEntry>)
    requires EntriesOf(ss, ignoreJson, es) && |es| < |ss|
    ensures EntriesOf(ss, ignoreJson, es + [LoadHsaco(ss[|es|], |BlobPart(ss, |es|)|, ignoreJson)])
  {
    hide LoadHsaco, BlobPart;
  }

  lemma AllEntries(ss: seq<Source>, ignoreJson: bool, es: seq<DirectoryEntry>)
    requires EntriesOf(ss, ignoreJson, es) && |es| == |ss|
    ensures es == DirectoryOf(ss, ignoreJson)
  {
    hide LoadHsaco, BlobPart;
  }

  lemma NoBlobs(ss: seq<Source>)
    ensures BlobPart(ss, 0) == []
  {
  }

  /** The directory size as the writer adds it up. */
  ghost function Sizes(es: seq<DirectoryEntry>, k: nat): int
    requires k <= |es|
  {
    if k == 0 then 0 else Sizes(es, k - 1) + EntrySize(es[k - 1])
  }

  lemma {:induction false} SizesAreBytes(es: seq<DirectoryEntry>, k: nat)
    requires k <= |es| && EntriesFit(es) && forall i :: 0 <= i < |es| ==> NameLengthRight(es[i])
    ensures Sizes(es, k) == |DirectoryPart(es, k)|
  {
    hide EntryFits;
    if k > 0 { SizesAreBytes(es, k - 1); }
  }

  lemma NameLengths(ss: seq<Source>, ignoreJson: bool)
    ensures forall i :: 0 <= i < |ss| ==> NameLengthRight(DirectoryOf(ss, ignoreJson)[i])
  {
    hide BlobPart;
  }

  predicate NameLengthRight(e: DirectoryEntry) { e.filenameLength == |e.filename| + 1 }

  /** What the first k sources take in an image before compression: 20 bytes of numbers, the name with its NUL and
      the binary of each. */
  ghost function PackedBytes(ss: seq<Source>, k: nat): nat
    requires k <= |ss|
  {
    if k == 0 then 0 else PackedBytes(ss, k - 1) + 21 + |ss[k - 1].name| + |ss[k - 1].blob|
  }

  /** The side file's numbers that go into the directory fit 32 bits. */
  predicate JsonFits(s: Source) {
    0 <= s.json.shared <= 4294967295 && 0 <= s.json.numWarps * s.json.warpSize <= 4294967295
  }

  /** When an image can be written, as numbers a caller can check: it stays under 4 GiB before compression, and
      the numbers of every compiled source whose side file is read fit. */
  lemma ImageFitsExactly(ss: seq<Source>, ignoreJson: bool)
    ensures ImageFits(ss, ignoreJson) <==>
      && PackedBytes(ss, |ss|) <= 4294967295
      && (ignoreJson || forall i :: 0 <= i < |ss| && ss[i].blob != [] ==> JsonFits(ss[i]))
  {
    hide BlobPart, DirectoryPart, Sizes, PackedBytes, JsonFits;
    var es := DirectoryOf(ss, ignoreJson);
    NameLengths(ss, ignoreJson);
    PackedIsWritten(ss, ignoreJson, |ss|);
    if EntriesFit(es) { SizesAreBytes(es, |es|); }
    forall i | 0 <= i < |ss|
      ensures EntryFits(es[i]) ==> ignoreJson || ss[i].blob == [] || JsonFits(ss[i])
      ensures PackedBytes(ss, |ss|) <= 4294967295 && (ignoreJson || ss[i].blob == [] || JsonFits(ss[i])) ==> EntryFits(es[i])
    {
      OneFits(ss, ignoreJson, i);
    }
  }

  lemma OneFits(ss: seq<Source>, ignoreJson: bool, i: nat)
    requires i < |ss|
    ensures var e := DirectoryOf(ss, ignoreJson)[i];
      && (EntryFits(e) ==> ignoreJson || ss[i].blob == [] || JsonFits(ss[i]))
      && (PackedBytes(ss, |ss|) <= 4294967295 && (ignoreJson || ss[i].blob == [] || JsonFits(ss[i])) ==> EntryFits(e))
  {
    var e, offset := DirectoryOf(ss, ignoreJson)[i], |BlobPart(ss, i)|;
    LoadedFields(ss[i], offset, ignoreJson);
    NumbersFit(e, ss[i], offset, ignoreJson);
    hide BlobPart, LoadHsaco, EntryFits, JsonFits, EntryTells, DirectoryOf;
    PackedGrows(ss, i + 1, |ss|);
    BlobsInPacked(ss, i);
  }

  lemma NumbersFit(e: DirectoryEntry, s: Source, offset: int, ignoreJson: bool)
    requires EntryTells(e, s, offset, ignoreJson)
    ensures EntryFits(e) <==>
      && Fits32(offset) && Fits32(|s.blob|) && Fits32(|s.name| + 1) && (ignoreJson || s.blob == [] || JsonFits(s))
  {
  }

  lemma {:induction false} BlobsInPacked(ss: seq<Source>, k: nat)
    requires k <= |ss|
    ensures |BlobPart(ss, k)| + 21 * k <= PackedBytes(ss, k)
  {
    if k > 0 { BlobsInPacked(ss, k - 1); }
  }

  lemma {:induction false} PackedGrows(ss: seq<Source>, i: nat, k: nat)
    requires i <= k <= |ss|
    ensures PackedBytes(ss, i) <= PackedBytes(ss, k)
  {
    if i < k { PackedGrows(ss, i, k - 1); }
  }

  lemma {:induction false} PackedIsWritten(ss: seq<Source>, ignoreJson: bool, k: nat)
    requires k <= |ss|
    ensures Sizes(DirectoryOf(ss, ignoreJson), k) + |BlobPart(ss, k)| == PackedBytes(ss, k) >= 21 * k
  {
    hide LoadHsaco, BlobPart;
    if k == 0 {
      NoBlobs(ss);
    } else {
      PackedIsWritten(ss, ignoreJson, k - 1);
      BlobStep(ss, k - 1);
      LoadedFields(ss[k - 1], |BlobPart(ss, k - 1)|, ignoreJson);
    }
  }

  // ---------------------------------------------------------------- the reader

  /** What a C string read of a name sees: everything before its first NUL. */
  function CName(name: seq<Byte>): seq<Byte> { CString(name, 0, 0) }

  /** Where each name's metadata lies; Overrun is where the code would read past its buffer. */
  datatype Directory = Directory(at: map<seq<Byte>, nat>, end: nat) | Overrun

  /** Reads n entries from p on; the first entry of a name wins. */
  function ParseEntries(content: seq<Byte>, p: nat, n: nat, seen: map<seq<Byte>, nat>): Directory
    decreases n
  {
    if n == 0 then Directory(seen, p)
    else if p + METADATA_SIZE > |content| || FirstNul(content, 0, p + METADATA_SIZE) == |content| then Overrun
    else
      var name := CString(content, 0, p + METADATA_SIZE);
      ParseEntries(content, p + METADATA_SIZE + Le32(content, p + 16), n - 1, if name in seen then seen else seen[name := p])
  }

  datatype Status = Success | InvalidSource | IllegalState | IllegalAddress | ReadPastBuffer

  /** A constructed PackedKernel: its status and, on success, what lookups use. */
  datatype Opened = Opened(status: Status, content: seq<Byte>, at: map<seq<Byte>, nat>, kernelStart: nat)

  function Failed(status: Status): Opened { Opened(status, [], map[], 0) }

  function ParseContent(content: seq<Byte>, kernels: nat, directorySize: nat): Opened {
    match ParseEntries(content, 0, kernels, map[])
    case Overrun => Failed(ReadPastBuffer)
    case Directory(at, end) =>
      if end != directorySize then Opened(IllegalAddress, [], map[], end) else Opened(Success, content, at, end)
  }

  /** The image in file at [offset, offset + size). */
  function OpenImage(file: seq<Byte>, offset: nat, size: nat, decompress: Decompressor): Opened {
    if size < HEADER_SIZE then Failed(InvalidSource)
    else
      var header := FdRead(file, offset, HEADER_SIZE);
      if |header| != HEADER_SIZE || header[..4] != MAGIC then Failed(InvalidSource)
      else
        match decompress(FdRead(file, offset + HEADER_SIZE, size - HEADER_SIZE))
        case Broken => Failed(IllegalState)
        case Unpacked(bytes) =>
          if |bytes| > Le32(header, 4) then Failed(IllegalState)
          else ParseContent(bytes + Zeros(Le32(header, 4) - |bytes|), Le32(header, 8), Le32(header, 12))
  }

  /** The buffer is resized, hence zero-filled, before it is written. */
  function Zeros(n: nat): seq<Byte> { seq(n, i => 0) }

  /** What a lookup hands to the module loader. */
  datatype Essentials = NullImage | Image(start: nat, size: nat, shared: int, threads: int)

  /** Every listed entry's metadata lies inside the content. */
  ghost predicate WellPlaced(o: Opened) {
    forall name :: name in o.at ==> o.at[name] + METADATA_SIZE <= |o.content|
  }

  function FilterIn(o: Opened, stem: seq<Byte>): Essentials
    requires WellPlaced(o)
  {
    if o.status != Success || stem !in o.at then NullImage
    else
      var meta := o.at[stem];
      if Le32(o.content, meta + 12) == 0 then NullImage
      else
        Image(o.kernelStart + Le32(o.content, meta + 8), Le32(o.content, meta + 12),
              Le32(o.content, meta), Le32(o.content, meta + 4))
  }

  lemma {:induction false} EntriesInside(content: seq<Byte>, p: nat, n: nat, seen: map<seq<Byte>, nat>)
    requires forall name :: name in seen ==> seen[name] + METADATA_SIZE <= |content|
    ensures var d := ParseEntries(content, p, n, seen);
      d.Directory? ==> forall name :: name in d.at ==> d.at[name] + METADATA_SIZE <= |content|
    decreases n
  {
    hide Le32;
    if n > 0 && p + METADATA_SIZE <= |content| && FirstNul(content, 0, p + METADATA_SIZE) < |content| {
      var name := CString(content, 0, p + METADATA_SIZE);
      EntriesInside(content, p + METADATA_SIZE + Le32(content, p + 16), n - 1, if name in seen then seen else seen[name := p]);
    }
  }

  lemma OpenedWellPlaced(file: seq<Byte>, offset: nat, size: nat, decompress: Decompressor)
    ensures WellPlaced(OpenImage(file, offset, size, decompress))
  {
    hide Le32, ParseEntries, FdRead, ParseContent, WellPlaced, Zeros;
    forall status ensures WellPlaced(Failed(status)) { NothingMisplaced(status); }
    forall content, kernels: nat, directorySize: nat ensures WellPlaced(ParseContent(content, kernels, directorySize)) {
      ContentWellPlaced(content, kernels, directorySize);
    }
  }

  lemma NothingMisplaced(status: Status)
    ensures WellPlaced(Failed(status))
  {
  }

  lemma ContentWellPlaced(content: seq<Byte>, kernels: nat, directorySize: nat)
    ensures WellPlaced(ParseContent(content, kernels, directorySize))
  {
    EntriesInside(content, 0, kernels, map[]);
    hide ParseEntries;
  }

  // ---------------------------------------------------------------- what the reader accepts

  /** The image begins with a whole header that carries the magic. */
  predicate HeaderAt(file: seq<Byte>, offset: nat, size: nat) {
    && size >= 16 && offset + 16 <= |file|
    && file[offset] == 0x41 && file[offset + 1] == 0x4B && file[offset + 2] == 0x53 && file[offset + 3] == 0x32
  }

  /** Directory entries stand one after the other from ps[0] on, each with its metadata and a name that ends. */
  ghost predicate EntriesAt(content: seq<Byte>, ps: seq<nat>) {
    |ps| > 0 && forall i :: 0 <= i < |ps| - 1 ==>
      && ps[i] + 20 <= |content| && HasNul(content, ps[i] + 20)
      && ps[i + 1] == ps[i] + 20 + Le32(content, ps[i] + 16)
  }

  ghost predicate HasNul(content: seq<Byte>, i: nat) { exists j :: i <= j < |content| && content[j] == 0 }

  /** The name of an entry: what stands between its metadata and the next NUL. */
  ghost predicate NameAt(content: seq<Byte>, p: nat, name: seq<Byte>) {
    && p + 20 + |name| < |content| && content[p + 20..p + 20 + |name|] == name && content[p + 20 + |name|] == 0
    && forall j :: 0 <= j < |name| ==> name[j] != 0
  }

  /** at maps exactly the names of these entries and of seen, each to its first place. */
  ghost predicate FirstPlaces(content: seq<Byte>, ps: seq<nat>, seen: map<seq<Byte>, nat>, at: map<seq<Byte>, nat>)
    requires |ps| > 0
  {
    forall name ::
      && (name in seen ==> name in at && at[name] == seen[name])
      && (name in at && name !in seen ==> exists i :: 0 <= i < |ps| - 1 && at[name] == ps[i] && FirstNamedAt(content, ps, i, name))
      && (forall i :: 0 <= i < |ps| - 1 && NameAt(content, ps[i], name) ==> name in at)
  }

  ghost predicate FirstNamedAt(content: seq<Byte>, ps: seq<nat>, i: nat, name: seq<Byte>)
    requires i < |ps|
  {
    NameAt(content, ps[i], name) && forall k :: 0 <= k < i ==> !NameAt(content, ps[k], name)
  }

  lemma NulIsFound(content: seq<Byte>, i: nat)
    requires i <= |content|
    ensures FirstNul(content, 0, i) < |content| <==> HasNul(content, i)
  {
    hide FirstNul;
  }

  lemma NameIsCString(content: seq<Byte>, p: nat, name: seq<Byte>)
    requires p + 20 <= |content|
    ensures NameAt(content, p, name) <==> FirstNul(content, 0, p + 20) < |content| && CString(content, 0, p + 20) == name
  {
    hide FirstNul;
    var end := FirstNul(content, 0, p + 20);
    if NameAt(content, p, name) {
      forall j | p + 20 <= j < p + 20 + |name| ensures content[j] != 0 { assert content[j] == name[j - (p + 20)]; }
      assert end == p + 20 + |name|;
    }
    if end < |content| && CString(content, 0, p + 20) == name {
      assert |name| == end - (p + 20);
      forall j | 0 <= j < |name| ensures name[j] != 0 { assert name[j] == content[p + 20 + j]; }
    }
  }

  lemma {:induction false} ParseAccepts(content: seq<Byte>, p: nat, n: nat, seen: map<seq<Byte>, nat>) returns (ps: seq<nat>)
    ensures var d := ParseEntries(content, p, n, seen);
      d.Directory? ==> |ps| == n + 1 && ps[0] == p && ps[n] == d.end && EntriesAt(content, ps) && FirstPlaces(content, ps, seen, d.at)
    decreases n
  {
    hide FirstNul, Le32, CString, FirstPlaces, HasNul, EntriesAt;
    ps := [p];
    if n == 0 {
      NothingMore(content, p, seen);
    } else if p + METADATA_SIZE <= |content| && FirstNul(content, 0, p + METADATA_SIZE) < |content| {
      NulIsFound(content, p + METADATA_SIZE);
      var name := CString(content, 0, p + METADATA_SIZE);
      var more := if name in seen then seen else seen[name := p];
      var rest := ParseAccepts(content, p + METADATA_SIZE + Le32(content, p + 16), n - 1, more);
      ps := [p] + rest;
      var d := ParseEntries(content, p, n, seen);
      if d.Directory? {
        EntriesBefore(content, p, rest);
        NameIsCString(content, p, name);
        OneBefore(content, p, rest, name, seen, more, d.at);
      }
    }
  }

  lemma EntriesBefore(content: seq<Byte>, p: nat, rest: seq<nat>)
    requires EntriesAt(content, rest) && p + 20 <= |content| && HasNul(content, p + 20) && rest[0] == p + 20 + Le32(content, p + 16)
    ensures EntriesAt(content, [p] + rest)
  {
    hide HasNul, Le32;
    var ps := [p] + rest;
    forall i | 0 <= i < |ps| - 1
      ensures ps[i] + 20 <= |content| && HasNul(content, ps[i] + 20) && ps[i + 1] == ps[i] + 20 + Le32(content, ps[i] + 16)
    {
      if i > 0 { assert ps[i] == rest[i - 1] && rest[i - 1 + 1] == ps[i + 1]; }
    }
  }

  lemma NothingMore(content: seq<Byte>, p: nat, seen: map<seq<Byte>, nat>)
    ensures FirstPlaces(content, [p], seen, seen) && EntriesAt(content, [p])
  {
  }

  lemma SameName(content: seq<Byte>, p: nat, a: seq<Byte>, b: seq<Byte>)
    requires NameAt(content, p, a) && NameAt(content, p, b)
    ensures a == b
  {
    NameIsCString(content, p, a);
    NameIsCString(content, p, b);
  }

  /** The first entry of a list decides about its name; the others about theirs. */
  lemma OneBefore(content: seq<Byte>, p: nat, rest: seq<nat>, name: seq<Byte>, seen: map<seq<Byte>, nat>, more: map<seq<Byte>, nat>,
                  at: map<seq<Byte>, nat>)
    requires |rest| > 0 && NameAt(content, p, name) && more == (if name in seen then seen else seen[name := p])
    requires FirstPlaces(content, rest, more, at)
    ensures FirstPlaces(content, [p] + rest, seen, at)
  {
    hide NameAt;
    var ps := [p] + rest;
    forall key
      ensures key in seen ==> key in at && at[key] == seen[key]
      ensures key in at && key !in seen ==> exists i :: 0 <= i < |ps| - 1 && at[key] == ps[i] && FirstNamedAt(content, ps, i, key)
      ensures forall i :: 0 <= i < |ps| - 1 && NameAt(content, ps[i], key) ==> key in at
    {
      if NameAt(content, p, key) { SameName(content, p, key, name); }
      if key in at && key !in seen {
        if key == name {
          assert FirstNamedAt(content, ps, 0, key);
        } else {
          var i :| 0 <= i < |rest| - 1 && at[key] == rest[i] && FirstNamedAt(content, rest, i, key);
          assert ps[i + 1] == rest[i];
          forall k | 0 <= k < i + 1 ensures !NameAt(content, ps[k], key) { if k > 0 { assert ps[k] == rest[k - 1]; } }
          assert FirstNamedAt(content, ps, i + 1, key);
        }
      }
      forall i | 0 <= i < |ps| - 1 && NameAt(content, ps[i], key) ensures key in at { if i > 0 { assert ps[i] == rest[i - 1]; } }
    }
  }

  lemma {:induction false} ParseComplete(content: seq<Byte>, p: nat, n: nat, seen: map<seq<Byte>, nat>, ps: seq<nat>)
    requires |ps| == n + 1 && ps[0] == p && EntriesAt(content, ps)
    ensures ParseEntries(content, p, n, seen).Directory? && ParseEntries(content, p, n, seen).end == ps[n]
    decreases n
  {
    hide FirstNul, Le32, CString, HasNul;
    if n > 0 {
      assert ps[0] + 20 <= |content| && HasNul(content, ps[0] + 20) && ps[0 + 1] == ps[0] + 20 + Le32(content, ps[0] + 16);
      NulIsFound(content, p + METADATA_SIZE);
      var name := CString(content, 0, p + METADATA_SIZE);
      EntriesAfter(content, ps);
      ParseComplete(content, ps[1], n - 1, if name in seen then seen else seen[name := p], ps[1..]);
    }
  }

  lemma EntriesAfter(content: seq<Byte>, ps: seq<nat>)
    requires EntriesAt(content, ps) && |ps| > 1
    ensures EntriesAt(content, ps[1..])
  {
    hide HasNul, Le32;
    forall i | 0 <= i < |ps[1..]| - 1
      ensures ps[1..][i] + 20 <= |content| && HasNul(content, ps[1..][i] + 20)
      ensures ps[1..][i + 1] == ps[1..][i] + 20 + Le32(content, ps[1..][i] + 16)
    {
      assert ps[1..][i] == ps[i + 1] && ps[1..][i + 1] == ps[i + 1 + 1];
    }
  }

  /** A directory of n entries that ends at end. */
  ghost predicate DirectoryAt(content: seq<Byte>, n: nat, end: nat, ps: seq<nat>) {
    |ps| == n + 1 && ps[0] == 0 && ps[n] == end && EntriesAt(content, ps)
  }

  /** On any bytes at all: which of them open, with which status the others fail, and what an opened image lists. */
  lemma OpenExactly(file: seq<Byte>, offset: nat, size: nat, decompress: Decompressor)
    ensures var o := OpenImage(file, offset, size, decompress);
      && (o.status == InvalidSource <==> !HeaderAt(file, offset, size))
      && (HeaderAt(file, offset, size) ==>
            var unpacked, total := decompress(FdRead(file, offset + 16, size - 16)), Le32(file, offset + 4);
            && (o.status == IllegalState <==> unpacked.Broken? || |unpacked.bytes| > total)
            && (unpacked.Unpacked? && |unpacked.bytes| <= total ==>
                  OpensTo(o, unpacked.bytes + seq(total - |unpacked.bytes|, i => 0), Le32(file, offset + 8), Le32(file, offset + 12))))
  {
    hide Le32, ParseEntries, OpensTo;
    if size >= 16 && offset + 16 <= |file| {
      var header := FdRead(file, offset, HEADER_SIZE);
      assert header == file[offset..offset + 16];
      assert header[..4] == MAGIC <==> HeaderAt(file, offset, size) by { MagicBytes(file, offset, header); }
      HeaderFields(file, offset, header);
      forall content, n: nat, end: nat ensures OpensTo(ParseContent(content, n, end), content, n, end) { ContentOpens(content, n, end); }
    }
  }

  lemma MagicBytes(file: seq<Byte>, offset: nat, header: seq<Byte>)
    requires offset + 16 <= |file| && header == file[offset..offset + 16]
    ensures header[..4] == MAGIC <==> file[offset] == 0x41 && file[offset + 1] == 0x4B && file[offset + 2] == 0x53 && file[offset + 3] == 0x32
  {
    assert header[..4] == [file[offset], file[offset + 1], file[offset + 2], file[offset + 3]];
  }

  lemma HeaderFields(file: seq<Byte>, offset: nat, header: seq<Byte>)
    requires offset + 16 <= |file| && header == file[offset..offset + 16]
    ensures Le32(header, 4) == Le32(file, offset + 4) && Le32(header, 8) == Le32(file, offset + 8) && Le32(header, 12) == Le32(file, offset + 12)
  {
  }

  /** Whether content is a directory of n entries ending at end, and what becomes of it. */
  ghost predicate OpensTo(o: Opened, content: seq<Byte>, n: nat, end: nat) {
    && (o.status == Success <==> exists ps :: DirectoryAt(content, n, end, ps))
    && (o.status == IllegalAddress <==> exists other, ps :: other != end && DirectoryAt(content, n, other, ps))
    && o.status != InvalidSource && o.status != IllegalState
    && (o.status == Success ==>
          o.content == content && o.kernelStart == end
          && forall ps :: DirectoryAt(content, n, end, ps) ==> FirstPlaces(content, ps, map[], o.at))
  }

  lemma ContentOpens(content: seq<Byte>, n: nat, end: nat)
    ensures OpensTo(ParseContent(content, n, end), content, n, end)
  {
    hide ParseEntries, FirstPlaces, EntriesAt;
    var d := ParseEntries(content, 0, n, map[]);
    var ps := ParseAccepts(content, 0, n, map[]);
    if d.Directory? { assert DirectoryAt(content, n, d.end, ps); }
    forall other, ps' | DirectoryAt(content, n, other, ps') ensures d.Directory? && d.end == other && ps' == ps {
      ParseComplete(content, 0, n, map[], ps');
      SamePlaces(content, ps, ps', n);
    }
  }

  lemma {:induction false} SamePlaces(content: seq<Byte>, ps: seq<nat>, qs: seq<nat>, k: nat)
    requires EntriesAt(content, ps) && EntriesAt(content, qs) && |ps| == |qs| == k + 1 && ps[0] == qs[0]
    ensures ps == qs
    decreases k
  {
    hide HasNul, Le32;
    if k > 0 {
      assert ps[0 + 1] == ps[0] + 20 + Le32(content, ps[0] + 16) && qs[0 + 1] == qs[0] + 20 + Le32(content, qs[0] + 16);
      EntriesAfter(content, ps);
      EntriesAfter(content, qs);
      SamePlaces(content, ps[1..], qs[1..], k - 1);
      assert ps == [ps[0]] + ps[1..] && qs == [qs[0]] + qs[1..];
    }
  }

  class PackedKernel {
    var decompressedContent: seq<Byte>
    var finalStatus: Status
    var kernelStart: nat
    var directory: map<seq<Byte>, nat>

    ghost function Value(): Opened
      reads this
    {
      Opened(finalStatus, decompressedContent, directory, kernelStart)
    }

    ghost predicate Valid()
      reads this
    {
      WellPlaced(Value())
    }

    constructor (file: seq<Byte>, offset: nat, size: nat, decompress: Decompressor)
      ensures Valid() && Value() == OpenImage(file, offset, size, decompress)
    {
      hide Le32, FirstNul;
      decompressedContent, finalStatus, kernelStart, directory := [], Success, 0, map[];
      new;
      if size < HEADER_SIZE {
        finalStatus := InvalidSource;
        return;
      }
      var header := FdRead(file, offset, HEADER_SIZE);
      if |header| != HEADER_SIZE || header[..4] != MAGIC {
        finalStatus := InvalidSource;
        return;
      }
      var unpacked := decompress(FdRead(file, offset + HEADER_SIZE, size - HEADER_SIZE));
      if unpacked.Broken? || |unpacked.bytes| > Le32(header, 4) {
        finalStatus := IllegalState;
        return;
      }
      decompressedContent := unpacked.bytes + Zeros(Le32(header, 4) - |unpacked.bytes|);
      Parse(Le32(header, 8), Le32(header, 12));
    }

    /** The parse loop, with a pointer that advances through the content. */
    method Parse(kernels: nat, directorySize: nat)
      requires directory == map[] && kernelStart == 0 && finalStatus == Success
      modifies this
      ensures Valid() && Value() == ParseContent(old(decompressedContent), kernels, directorySize)
    {
      hide Le32;
      var content := decompressedContent;
      var p: nat := 0;
      var i := 0;
      EntriesInside(content, 0, kernels, map[]);
      while i < kernels
        invariant 0 <= i <= kernels && decompressedContent == content && kernelStart == 0 && finalStatus == Success
        invariant ParseEntries(content, p, kernels - i, directory) == ParseEntries(content, 0, kernels, map[])
      {
        if p + METADATA_SIZE > |content| || FirstNul(content, 0, p + METADATA_SIZE) == |content| {
          decompressedContent, directory, finalStatus := [], map[], ReadPastBuffer;
          return;
        }
        var filename := CString(content, 0, p + METADATA_SIZE);
        if filename !in directory { directory := directory[filename := p]; }
        p := p + METADATA_SIZE + Le32(content, p + 16);
        i := i + 1;
      }
      kernelStart := p;
      if p != directorySize {
        decompressedContent, directory, finalStatus := [], map[], IllegalAddress;
      }
    }

    /** If this kernel was opened from an image of some sources, the answer is exactly the binary packed first
        under the name, with its launch facts, and null exactly when there is none or it is empty. */
    method Filter(stem: seq<Byte>) returns (r: Essentials)
      requires Valid()
      ensures r == FilterIn(Value(), stem)
      ensures forall ss, ignoreJson :: OpenedFrom(Value(), ss, ignoreJson) ==> Answers(r, decompressedContent, ss, ignoreJson, stem)
    {
      hide Le32, OpenedFrom, Answers;
      r := NullImage;
      if finalStatus == Success && stem in directory {
        var meta := directory[stem];
        var imageSize := Le32(decompressedContent, meta + 12);
        if imageSize != 0 {
          r := Image(kernelStart + Le32(decompressedContent, meta + 8), imageSize,
                     Le32(decompressedContent, meta), Le32(decompressedContent, meta + 4));
        }
      }
      forall ss, ignoreJson | OpenedFrom(Value(), ss, ignoreJson)
        ensures Answers(r, decompressedContent, ss, ignoreJson, stem)
      {
        LookupReads(ss, ignoreJson, Value(), stem);
      }
    }
  }

  // ---------------------------------------------------------------- the reader inverts the writer

  ghost predicate Inverse(compress: Compressor, decompress: Decompressor) {
    forall bytes :: decompress(compress(bytes)) == Unpacked(bytes)
  }

  /** The first source from i on whose name reads as key, or the end. */
  function FirstNamed(ss: seq<Source>, i: nat, key: seq<Byte>): (n: nat)
    requires i <= |ss|
    ensures i <= n <= |ss| && (n < |ss| ==> CName(ss[n].name) == key)
    ensures forall j :: i <= j < n ==> CName(ss[j].name) != key
    decreases |ss| - i
  {
    if i == |ss| || CName(ss[i].name) == key then i else FirstNamed(ss, i + 1, key)
  }

  /** What a lookup of key should give: the kernel packed first under that name, unless it has no bytes. */
  ghost predicate Answers(r: Essentials, content: seq<Byte>, ss: seq<Source>, ignoreJson: bool, key: seq<Byte>) {
    var i := FirstNamed(ss, 0, key);
    match r
    case NullImage => i == |ss| || ss[i].blob == []
    case Image(start, size, shared, threads) =>
      && i < |ss| && ss[i].blob != [] && start + size <= |content| && content[start..start + size] == ss[i].blob
      && shared == (if ignoreJson then 0 else ss[i].json.shared)
      && threads == (if ignoreJson then 0 else ss[i].json.numWarps * ss[i].json.warpSize)
  }

  ghost predicate Finds(o: Opened, ss: seq<Source>, ignoreJson: bool, key: seq<Byte>)
    requires WellPlaced(o)
  {
    Answers(FilterIn(o, key), o.content, ss, ignoreJson, key)
  }

  /** What opening the image of ss leaves: its content, its directory, and where its binaries start. */
  ghost predicate OpenedFrom(o: Opened, ss: seq<Source>, ignoreJson: bool) {
    && ImageFits(ss, ignoreJson) && o.status == Success && o.content == Content(ss, ignoreJson)
    && o.kernelStart == |DirectoryPart(DirectoryOf(ss, ignoreJson), |ss|)|
    && Lists(o.at, ss, DirectoryOf(ss, ignoreJson), |ss|)
  }

  /** The parsed map lists exactly the names of the first k sources, each at its first entry. */
  ghost predicate Lists(at: map<seq<Byte>, nat>, ss: seq<Source>, es: seq<DirectoryEntry>, k: nat)
    requires |es| == |ss| && EntriesFit(es)
  {
    forall key :: (key in at <==> FirstNamed(ss, 0, key) < k)
      && (key in at && FirstNamed(ss, 0, key) < |ss| ==> at[key] == |DirectoryPart(es, FirstNamed(ss, 0, key))|)
  }

  lemma {:induction false} DirectoryGrows(es: seq<DirectoryEntry>, i: nat, n: nat)
    requires EntriesFit(es) && i <= n <= |es|
    ensures DirectoryPart(es, i) <= DirectoryPart(es, n)
  {
    hide EntryFits, DirectoryEntryBlob;
    if i < n { DirectoryGrows(es, i, n - 1); }
  }

  lemma {:induction false} BlobsGrow(ss: seq<Source>, i: nat, n: nat)
    requires i <= n <= |ss|
    ensures BlobPart(ss, i) <= BlobPart(ss, n)
  {
    if i < n { BlobsGrow(ss, i, n - 1); }
  }

  lemma EntryInPlace(es: seq<DirectoryEntry>, content: seq<Byte>, i: nat)
    requires EntriesFit(es) && i < |es| && DirectoryPart(es, |es|) <= content
    ensures DirectoryPart(es, i + 1) == DirectoryPart(es, i) + DirectoryEntryBlob(es[i]) <= content
  {
    hide EntryFits, DirectoryEntryBlob;
    DirectoryGrows(es, i + 1, |es|);
  }

  /** An entry's fields and name read back from where it lies. */
  lemma EntryRead(content: seq<Byte>, front: seq<Byte>, e: DirectoryEntry)
    requires EntryFits(e) && front + DirectoryEntryBlob(e) <= content
    ensures var p := |front|;
      && p + METADATA_SIZE + |e.filename| < |content|
      && Le32(content, p) == e.sharedMemorySize && Le32(content, p + 4) == e.blockThreads
      && Le32(content, p + 8) == e.offset && Le32(content, p + 12) == e.imageSize
      && Le32(content, p + 16) == e.filenameLength
  {
    var p, meta, whole := |front|, Metadata(e), front + DirectoryEntryBlob(e);
    hide Metadata;
    assert forall k :: 0 <= k < METADATA_SIZE ==> content[p + k] == whole[p + k] == meta[k];
  }

  lemma NameRead(content: seq<Byte>, front: seq<Byte>, e: DirectoryEntry)
    requires EntryFits(e) && front + DirectoryEntryBlob(e) <= content
    ensures var q := |front| + METADATA_SIZE;
      && q + |e.filename| < |content|
      && FirstNul(content, 0, q) < |content| && CString(content, 0, q) == CName(e.filename)
  {
    hide Metadata, FirstNul, CString;
    assert front + DirectoryEntryBlob(e) == front + Metadata(e) + e.filename + [0];
    StoredStringReads(content, 0, front + Metadata(e), e.filename);
  }

  lemma FirstAtMost(ss: seq<Source>, k: nat, key: seq<Byte>)
    requires k < |ss| && CName(ss[k].name) == key
    ensures FirstNamed(ss, 0, key) <= k
  {
    hide FirstNamed, CName;
  }

  lemma OnlyThatName(ss: seq<Source>, k: nat, key: seq<Byte>)
    requires k < |ss|
    ensures FirstNamed(ss, 0, key) == k ==> CName(ss[k].name) == key
  {
    hide FirstNamed, CName;
  }

  lemma ListsOneMore(at: map<seq<Byte>, nat>, ss: seq<Source>, es: seq<DirectoryEntry>, k: nat)
    requires |es| == |ss| && EntriesFit(es) && k < |ss| && Lists(at, ss, es, k)
    ensures var name := CName(ss[k].name);
      Lists(if name in at then at else at[name := |DirectoryPart(es, k)|], ss, es, k + 1)
  {
    hide DirectoryPart, EntryFits, FirstNamed, CName;
    var name := CName(ss[k].name);
    FirstAtMost(ss, k, name);
    var more := if name in at then at else at[name := |DirectoryPart(es, k)|];
    forall key
      ensures key in more <==> FirstNamed(ss, 0, key) < k + 1
      ensures key in more && FirstNamed(ss, 0, key) < |ss| ==> more[key] == |DirectoryPart(es, FirstNamed(ss, 0, key))|
    {
      OnlyThatName(ss, k, key);
    }
  }

  lemma {:induction false} ParseLists(ss: seq<Source>, es: seq<DirectoryEntry>, content: seq<Byte>, k: nat, at: map<seq<Byte>, nat>)
    requires |es| == |ss| && EntriesFit(es) && k <= |ss| && DirectoryPart(es, |es|) <= content && Lists(at, ss, es, k)
    requires forall i :: 0 <= i < |es| ==> NameLengthRight(es[i]) && es[i].filename == ss[i].name
    ensures var d := ParseEntries(content, |DirectoryPart(es, k)|, |es| - k, at);
      d.Directory? && d.end == |DirectoryPart(es, |es|)| && Lists(d.at, ss, es, |es|)
    decreases |ss| - k
  {
    hide DirectoryPart, DirectoryEntryBlob, EntryFits, FirstNamed, CName, FirstNul, Le32, Lists;
    if k < |ss| {
      EntryInPlace(es, content, k);
      EntryRead(content, DirectoryPart(es, k), es[k]);
      NameRead(content, DirectoryPart(es, k), es[k]);
      EntryBytes(es[k]);
      ListsOneMore(at, ss, es, k);
      var name := CName(ss[k].name);
      ParseLists(ss, es, content, k + 1, if name in at then at else at[name := |DirectoryPart(es, k)|]);
    }
  }

  lemma EntryBytes(e: DirectoryEntry)
    requires EntryFits(e)
    ensures |DirectoryEntryBlob(e)| == METADATA_SIZE + |e.filename| + 1
  {
  }

  /** A lookup reads the entry it finds. */
  lemma LookupReads(ss: seq<Source>, ignoreJson: bool, o: Opened, key: seq<Byte>)
    requires WellPlaced(o) && OpenedFrom(o, ss, ignoreJson)
    ensures Finds(o, ss, ignoreJson, key)
  {
    hide DirectoryPart, BlobPart, FirstNamed, Le32, EntryFits, DirectoryEntryBlob, LoadHsaco;
    var es, i := DirectoryOf(ss, ignoreJson), FirstNamed(ss, 0, key);
    if i < |ss| {
      EntryInPlace(es, o.content, i);
      EntryRead(o.content, DirectoryPart(es, i), es[i]);
      BlobInPlace(ss, DirectoryPart(es, |es|), i);
      LoadedFields(ss[i], |BlobPart(ss, i)|, ignoreJson);
    }
  }

  lemma LoadedFields(s: Source, offset: int, ignoreJson: bool)
    ensures EntryTells(LoadHsaco(s, offset, ignoreJson), s, offset, ignoreJson)
  {
  }

  lemma BlobInPlace(ss: seq<Source>, dir: seq<Byte>, i: nat)
    requires i < |ss|
    ensures var start := |dir| + |BlobPart(ss, i)|;
      && start + |ss[i].blob| <= |dir| + |BlobPart(ss, |ss|)|
      && (dir + BlobPart(ss, |ss|))[start..start + |ss[i].blob|] == ss[i].blob
  {
    hide BlobPart;
    BlobsGrow(ss, i + 1, |ss|);
    BlobStep(ss, i);
    SliceAfter(dir, BlobPart(ss, |ss|), BlobPart(ss, i), ss[i].blob);
  }

  lemma SliceAfter(dir: seq<Byte>, all: seq<Byte>, before: seq<Byte>, blob: seq<Byte>)
    requires before + blob <= all
    ensures var start := |dir| + |before|;
      (dir + all)[start..start + |blob|] == blob
  {
    var start, upTo := |dir| + |before|, before + blob;
    assert forall k :: 0 <= k < |blob| ==> (dir + all)[start + k] == all[|before| + k] == upTo[|before| + k] == blob[k];
  }

  lemma BlobStep(ss: seq<Source>, i: nat)
    requires i < |ss|
    ensures BlobPart(ss, i + 1) == BlobPart(ss, i) + ss[i].blob
  {
  }

  /** For every list of sources that fits the format, wherever its image lies in a file: opening succeeds,
      and every lookup gives exactly the kernel packed first under that name. */
  lemma OpenInvertsWrite(ss: seq<Source>, ignoreJson: bool, compress: Compressor, decompress: Decompressor,
                         file: seq<Byte>, offset: nat, key: seq<Byte>)
    requires Inverse(compress, decompress) && ImageFits(ss, ignoreJson)
    requires FdRead(file, offset, |AksImage(ss, ignoreJson, compress)|) == AksImage(ss, ignoreJson, compress)
    ensures var o := OpenImage(file, offset, |AksImage(ss, ignoreJson, compress)|, decompress);
      && o.status == Success && WellPlaced(o) && OpenedFrom(o, ss, ignoreJson)
      && Finds(o, ss, ignoreJson, key)
  {
    hide DirectoryPart, BlobPart, Le32, EntryFits, FirstNamed, Header, ParseEntries, Finds, DirectoryOf;
    var es, content := DirectoryOf(ss, ignoreJson), Content(ss, ignoreJson);
    var h := Header(|content|, |ss|, |DirectoryPart(es, |es|)|);
    HeaderRead(file, offset, h, compress(content));
    assert content + Zeros(0) == content;
    NameLengths(ss, ignoreJson);
    NamesKept(ss, ignoreJson);
    NothingListed(ss, es);
    ParseLists(ss, es, content, 0, map[]);
    EntriesInside(content, 0, |ss|, map[]);
    LookupReads(ss, ignoreJson, OpenImage(file, offset, |h + compress(content)|, decompress), key);
  }

  lemma NamesKept(ss: seq<Source>, ignoreJson: bool)
    ensures forall i :: 0 <= i < |ss| ==> DirectoryOf(ss, ignoreJson)[i].filename == ss[i].name
  {
    hide BlobPart;
  }

  lemma NothingListed(ss: seq<Source>, es: seq<DirectoryEntry>)
    requires |es| == |ss| && EntriesFit(es)
    ensures DirectoryPart(es, 0) == [] && Lists(map[], ss, es, 0)
  {
    hide EntryFits, FirstNamed;
  }

  /** The two reads of an image: its header, then its payload. */
  lemma HeaderRead(file: seq<Byte>, offset: nat, h: seq<Byte>, payload: seq<Byte>)
    requires |h| == HEADER_SIZE && FdRead(file, offset, |h + payload|) == h + payload
    ensures FdRead(file, offset, HEADER_SIZE) == h
    ensures FdRead(file, offset + HEADER_SIZE, |payload|) == payload
  {
    var image := file[offset..offset + |h + payload|];
    assert file[offset..offset + HEADER_SIZE] == image[..HEADER_SIZE] == h;
    assert file[offset + HEADER_SIZE..offset + |h + payload|] == image[HEADER_SIZE..] == payload;
  }

  ghost predicate NulFreeNames(ss: seq<Source>) { forall i :: 0 <= i < |ss| ==> NulFree(ss[i].name, 0) }

  ghost predicate DistinctNames(ss: seq<Source>) { forall i, j :: 0 <= i < j < |ss| ==> ss[i].name != ss[j].name }

  ghost predicate EachFound(ss: seq<Source>) { forall i :: 0 <= i < |ss| ==> FirstNamed(ss, 0, ss[i].name) == i }

  /** Every kernel is found under its own name exactly when no name holds a NUL and no two are equal. */
  lemma OwnNamesFound(ss: seq<Source>)
    ensures EachFound(ss) <==> (NulFreeNames(ss) && DistinctNames(ss))
  {
    hide FirstNamed, FirstNul;
    forall i | 0 <= i < |ss| ensures CName(ss[i].name) == ss[i].name <==> NulFree(ss[i].name, 0) { ReadsWholeExactly(ss[i].name, 0); }
  }
}
