/** The two storage layers together: a kernel packed into an AKS2 image, stored in an archive, comes back. */
module KernelStore {
  import opened Bytes
  import opened FlatZip
  import opened Aks2

  /** The directory a reader builds from what it visits; the first entry of a name stays. */
  function InnerMap(visits: seq<Visit>): map<seq<Byte>, Visit> {
    if visits == [] then map[]
    else
      var front, last := InnerMap(visits[..|visits| - 1]), visits[|visits| - 1];
      if last.name in front then front else front[last.name := last]
  }

  /** The directory holds, for each name, the first entry of that name. */
  lemma {:induction false} InnerMapHoldsFirsts(visits: seq<Visit>, name: seq<Byte>)
    ensures name in InnerMap(visits) <==> exists i :: 0 <= i < |visits| && visits[i].name == name
    ensures forall i :: 0 <= i < |visits| && visits[i].name == name && (forall j :: 0 <= j < i ==> visits[j].name != name) ==>
              InnerMap(visits)[name] == visits[i]
  {
    if visits != [] {
      var n := |visits| - 1;
      InnerMapHoldsFirsts(visits[..n], name);
      assert forall i :: 0 <= i < n ==> visits[..n][i] == visits[i];
      InnerMapHoldsFirsts(visits[..n], visits[n].name);
    }
  }

  ghost predicate FirstOfItsName(es: seq<Entry>, j: nat)
    requires j < |es|
  {
    forall i :: 0 <= i < j ==> es[i].name != es[j].name
  }

  /** The directory read back gives an entry's own place, and its data lies there. */
  lemma EntryComesBack(es: seq<Entry>, j: nat)
    requires ArchiveFits(es) && j < |es| && FirstOfItsName(es, j)
    ensures var file, listing := ZipImage(es), ListZip(ZipImage(es));
      && listing.ok && es[j].name in InnerMap(listing.visits)
      && var v := InnerMap(listing.visits)[es[j].name];
      v.size == |es[j].data| && FdRead(file, v.offset, v.size) == es[j].data
  {
    hide ListZip, ZipImage, FdRead, InnerMap, LocalFits, LocalPart, CentralPart;
    ListInvertsBuild(es);
    var visits := ListZip(ZipImage(es)).visits;
    assert visits[j] == VisitOf(es, j) && forall i :: 0 <= i < j ==> visits[i] == VisitOf(es, i);
    InnerMapHoldsFirsts(visits, es[j].name);
  }

  /** Pack kernels into an image, the image into an archive among others; list the archive, look the image up,
      open it there, look a kernel up: what was packed first under that name comes back. */
  lemma StoredKernelComesBack(es: seq<Entry>, j: nat, ss: seq<Source>, ignoreJson: bool,
                              compress: Compressor, decompress: Decompressor, key: seq<Byte>)
    requires Inverse(compress, decompress) && ArchiveFits(es) && ImageFits(ss, ignoreJson)
    requires j < |es| && FirstOfItsName(es, j) && es[j].data == AksImage(ss, ignoreJson, compress)
    ensures var file, dir := ZipImage(es), InnerMap(ListZip(ZipImage(es)).visits);
      && ListZip(file).ok && es[j].name in dir
      && var o := OpenImage(file, dir[es[j].name].offset, dir[es[j].name].size, decompress);
      && o.status == Success && WellPlaced(o) && Finds(o, ss, ignoreJson, key)
  {
    hide ArchiveFits, ListZip, ImageFits, AksImage, OpenImage, Finds, ZipImage, FdRead, InnerMap;
    EntryComesBack(es, j);
    var v := InnerMap(ListZip(ZipImage(es)).visits)[es[j].name];
    OpenInvertsWrite(ss, ignoreJson, compress, decompress, ZipImage(es), v.offset, key);
  }
}
