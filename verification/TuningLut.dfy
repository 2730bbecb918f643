/** The tuning look-up table: built from the rows of the tuning database, indexed at run time by binned
    sequence lengths. numpy's row deduplication is a parameter, described by what it guarantees. */
module TuningLut {
  import opened Arith
  import opened Options
  import opened Godel

  /** A database row: the GPU it was tuned on, its autotune keys, and the kernel signature that won. */
  datatype Row = Row(gpu: string, keys: seq<int>, sig: seq<int>)

  // ---------------------------------------------------------------- representatives and binning

  ghost predicate Increasing(s: seq<int>) { forall i, j :: 0 <= i < j < |s| ==> s[i] < s[j] }

  function Inserted(s: seq<int>, v: int): (r: seq<int>)
    requires Increasing(s)
    ensures Increasing(r) && forall x :: x in r <==> x in s || x == v
  {
    if s == [] then [v]
    else if v < s[0] then
      HeadBelowTail(s);
      HeadInFront(v, s);
      [v] + s
    else if v == s[0] then s
    else
      HeadBelowTail(s);
      var rest := Inserted(s[1..], v);
      HeadInFront(s[0], rest);
      [s[0]] + rest
  }

  lemma HeadBelowTail(s: seq<int>)
    requires Increasing(s) && s != []
    ensures Increasing(s[1..]) && (forall x :: x in s[1..] ==> s[0] < x)
    ensures forall x :: x in s <==> x == s[0] || x in s[1..]
  {
    assert s == [s[0]] + s[1..];
  }

  lemma HeadInFront(a: int, rest: seq<int>)
    requires Increasing(rest) && forall x :: x in rest ==> a < x
    ensures Increasing([a] + rest)
    ensures forall x :: x in [a] + rest <==> x == a || x in rest
  {
    assert forall j :: 0 <= j < |rest| ==> rest[j] in rest;
  }

  /** np.unique over one key column */
  function SortedUnique(rows: seq<Row>, k: nat): (r: seq<int>)
    requires forall i :: 0 <= i < |rows| ==> k < |rows[i].keys|
    ensures Increasing(r) && forall x :: x in r <==> exists i :: 0 <= i < |rows| && rows[i].keys[k] == x
  {
    if rows == [] then []
    else
      var front := SortedUnique(rows[..|rows| - 1], k);
      var r := Inserted(front, rows[|rows| - 1].keys[k]);
      assert forall i :: 0 <= i < |rows| - 1 ==> rows[..|rows| - 1][i] == rows[i];
      r
  }

  /** The generated comparison chain: the first bin whose representative is not below x, else the last. */
  function BinFrom(reps: seq<int>, x: int, i: nat): (bin: int)
    requires i <= |reps|
    ensures -1 <= bin < |reps| && (|reps| > 0 ==> bin >= 0)
    decreases |reps| - i
  {
    if i == |reps| then |reps| - 1 else if x <= reps[i] then i else BinFrom(reps, x, i + 1)
  }

  /** Binning picks the smallest representative that is not below x, or the largest one. */
  lemma {:induction false} BinsToSmallestAbove(reps: seq<int>, x: int, i: nat)
    requires Increasing(reps) && i < |reps| && forall j :: 0 <= j < i ==> reps[j] < x
    ensures var bin := BinFrom(reps, x, i);
      && 0 <= bin < |reps|
      && (if x <= reps[|reps| - 1] then x <= reps[bin] && forall r :: r in reps && x <= r ==> reps[bin] <= r
          else forall r :: r in reps ==> r <= reps[bin])
    decreases |reps| - i
  {
    if x > reps[i] && i + 1 < |reps| { BinsToSmallestAbove(reps, x, i + 1); }
  }

  // ---------------------------------------------------------------- the specification

  ghost predicate Uniform(rows: seq<Row>, nkeys: nat) { forall r :: 0 <= r < |rows| ==> |rows[r].keys| == nkeys }

  /** The sorted distinct values of every key. */
  function Representatives(rows: seq<Row>, nkeys: nat): (reps: seq<seq<int>>)
    requires Uniform(rows, nkeys)
    ensures |reps| == nkeys
  {
    seq(nkeys, k requires 0 <= k < nkeys => SortedUnique(rows, k))
  }

  /** The key values a cell of the table stands for. */
  function KeysAt(reps: seq<seq<int>>, t: seq<nat>): (keys: seq<int>)
    requires |t| == |reps| && forall k :: 0 <= k < |reps| ==> t[k] < |reps[k]|
    ensures |keys| == |reps|
  {
    seq(|reps|, k requires 0 <= k < |reps| => reps[k][t[k]])
  }

  /** The last of the first n rows for this GPU and these keys; -1 when there is none. */
  function LastRow(rows: seq<Row>, n: nat, gpu: string, keys: seq<int>): (r: int)
    requires n <= |rows|
    ensures -1 <= r < n && (r >= 0 ==> rows[r].gpu == gpu && rows[r].keys == keys)
    ensures forall q :: r < q < n ==> !(rows[q].gpu == gpu && rows[q].keys == keys)
  {
    if n == 0 then -1
    else if rows[n - 1].gpu == gpu && rows[n - 1].keys == keys then n - 1
    else LastRow(rows, n - 1, gpu, keys)
  }

  /** The row the database offers for these keys: the GPU's own, else the first GPU's. */
  function Offered(rows: seq<Row>, gpus: seq<string>, i: nat, keys: seq<int>): int
    requires i < |gpus|
  {
    var own := LastRow(rows, |rows|, gpus[i], keys);
    if own >= 0 then own else LastRow(rows, |rows|, gpus[0], keys)
  }

  function CellOf(rows: seq<Row>, revind: seq<int>, gpus: seq<string>, i: nat, keys: seq<int>): int
    requires i < |gpus| && |revind| == |rows|
  {
    var r := Offered(rows, gpus, i, keys);
    if 0 <= r < |rows| then revind[r] else -1
  }

  /** Row r is recorded for this GPU and these keys, and no later row is. */
  ghost predicate LastFor(rows: seq<Row>, r: int, gpu: string, keys: seq<int>) {
    && 0 <= r < |rows| && rows[r].gpu == gpu && rows[r].keys == keys
    && forall q :: r < q < |rows| ==> rows[q].gpu != gpu || rows[q].keys != keys
  }

  ghost predicate Recorded(rows: seq<Row>, gpu: string, keys: seq<int>) {
    exists r :: 0 <= r < |rows| && rows[r].gpu == gpu && rows[r].keys == keys
  }

  /** What the database says about these keys for a GPU: its own last row, failing that the last row of the
      first GPU, failing that nothing. says(r) stands for what is made of row r. */
  ghost predicate Says<T(!new)>(rows: seq<Row>, own: string, first: string, keys: seq<int>, answer: T, says: int -> T, nothing: T) {
    && (forall r :: LastFor(rows, r, own, keys) ==> answer == says(r))
    && (!Recorded(rows, own, keys) ==> forall r :: LastFor(rows, r, first, keys) ==> answer == says(r))
    && (!Recorded(rows, own, keys) && !Recorded(rows, first, keys) ==> answer == nothing)
  }

  lemma LastRowIsLast(rows: seq<Row>, gpu: string, keys: seq<int>)
    ensures var q := LastRow(rows, |rows|, gpu, keys);
      (q >= 0 <==> Recorded(rows, gpu, keys)) && forall r :: LastFor(rows, r, gpu, keys) <==> r == q && q >= 0
  {
    hide LastRow;
  }

  /** The index of a row's signature, as the table holds it. */
  function RowIndex(revind: seq<int>): int -> int { r => if 0 <= r < |revind| then revind[r] else -1 }

  lemma CellOfSays(rows: seq<Row>, revind: seq<int>, gpus: seq<string>, i: nat, keys: seq<int>)
    requires i < |gpus| && |revind| == |rows|
    ensures Says(rows, gpus[i], gpus[0], keys, CellOf(rows, revind, gpus, i, keys), RowIndex(revind), -1)
  {
    hide LastRow;
    LastRowIsLast(rows, gpus[i], keys);
    LastRowIsLast(rows, gpus[0], keys);
  }

  /** What np.unique(rows, axis=0, return_inverse=True) guarantees. */
  ghost predicate Deduplicated(rows: seq<Row>, sigs: seq<seq<int>>, revind: seq<int>) {
    && |revind| == |rows|
    && (forall r :: 0 <= r < |rows| ==> 0 <= revind[r] < |sigs| && sigs[revind[r]] == rows[r].sig)
    && (forall i, j :: 0 <= i < j < |sigs| ==> sigs[i] != sigs[j])
  }

  // ---------------------------------------------------------------- building the table

  /** Row r's place along each key. */
  function BucketsOf(reps: seq<seq<int>>, keys: seq<int>): (t: seq<nat>)
    requires |keys| == |reps| && forall k :: 0 <= k < |reps| ==> keys[k] in reps[k]
    ensures |t| == |reps| && forall k :: 0 <= k < |reps| ==> t[k] < |reps[k]| && reps[k][t[k]] == keys[k]
  {
    seq(|reps|, k requires 0 <= k < |reps| => IndexOf(reps[k], keys[k], 0))
  }

  /** bucket.index(v) */
  function IndexOf(s: seq<int>, v: int, i: nat): (n: nat)
    requires i <= |s| && v in s[i..]
    ensures i <= n < |s| && s[n] == v
    decreases |s| - i
  {
    if s[i] == v then i
    else
      assert s[i..] == [s[i]] + s[i + 1..];
      IndexOf(s, v, i + 1)
  }

  /** The number of bins per key. */
  function Bins(reps: seq<seq<int>>): (ns: seq<nat>)
    ensures |ns| == |reps| && forall k :: 0 <= k < |reps| ==> ns[k] == |reps[k]|
  {
    Counts(reps)
  }

  /** Row-major place of a cell among the cells of one GPU. */
  function CellKeys(reps: seq<seq<int>>, j: nat): (keys: seq<int>)
    requires j < Product(Bins(reps))
  {
    NumberDecodes(Bins(reps), j);
    KeysAt(reps, Decode(Bins(reps), j))
  }

  ghost predicate Placed(rows: seq<Row>, reps: seq<seq<int>>) {
    forall r :: 0 <= r < |rows| ==> |rows[r].keys| == |reps| && forall k :: 0 <= k < |reps| ==> rows[r].keys[k] in reps[k]
  }

  ghost predicate StrictReps(reps: seq<seq<int>>) { forall k :: 0 <= k < |reps| ==> Increasing(reps[k]) }

  /** A row's cell is the one that stands for its keys. */
  lemma RowHitsItsCell(reps: seq<seq<int>>, keys: seq<int>, j: nat)
    requires StrictReps(reps) && |keys| == |reps| && forall k :: 0 <= k < |reps| ==> keys[k] in reps[k]
    requires j < Product(Bins(reps))
    ensures IsChoice(Bins(reps), BucketsOf(reps, keys))
    ensures Number(Bins(reps), BucketsOf(reps, keys)) == j <==> CellKeys(reps, j) == keys
  {
    hide Product, IndexOf, Number, Decode;
    var ns, t := Bins(reps), BucketsOf(reps, keys);
    NumberDecodes(ns, j);
    var u := Decode(ns, j);
    DistinctNumbers(ns, t, u);
    assert KeysAt(reps, t) == keys;
    if CellKeys(reps, j) == keys {
      forall k | 0 <= k < |reps| ensures t[k] == u[k] { assert Increasing(reps[k]) && reps[k][t[k]] == reps[k][u[k]]; }
    }
  }

  lemma BucketInRange(reps: seq<seq<int>>, keys: seq<int>)
    requires |keys| == |reps| && forall k :: 0 <= k < |reps| ==> keys[k] in reps[k]
    ensures Number(Bins(reps), BucketsOf(reps, keys)) < Product(Bins(reps))
  {
    NumberInRange(Bins(reps), BucketsOf(reps, keys));
  }

  /** The rows of one GPU written over a row of the table; a later row of the same keys wins. */
  method Overlay(lut: array2<int>, i: nat, gpu: string, rows: seq<Row>, revind: seq<int>, reps: seq<seq<int>>)
    requires i < lut.Length0 && lut.Length1 == Product(Bins(reps)) && |revind| == |rows|
    requires Placed(rows, reps) && StrictReps(reps)
    modifies lut
    ensures forall j :: 0 <= j < lut.Length1 ==>
              var r := LastRow(rows, |rows|, gpu, CellKeys(reps, j));
              lut[i, j] == if r >= 0 then revind[r] else old(lut[i, j])
    ensures forall h, j :: 0 <= h < lut.Length0 && 0 <= j < lut.Length1 && h != i ==> lut[h, j] == old(lut[h, j])
  {
    hide Product, BucketsOf, CellKeys, Number;
    for r := 0 to |rows|
      invariant forall j :: 0 <= j < lut.Length1 ==>
                  var q := LastRow(rows, r, gpu, CellKeys(reps, j));
                  lut[i, j] == if q >= 0 then revind[q] else old(lut[i, j])
      invariant forall h, j :: 0 <= h < lut.Length0 && 0 <= j < lut.Length1 && h != i ==> lut[h, j] == old(lut[h, j])
    {
      if rows[r].gpu == gpu {
        BucketInRange(reps, rows[r].keys);
        forall j | 0 <= j < lut.Length1
          ensures Number(Bins(reps), BucketsOf(reps, rows[r].keys)) == j <==> CellKeys(reps, j) == rows[r].keys
        {
          RowHitsItsCell(reps, rows[r].keys, j);
        }
        lut[i, Number(Bins(reps), BucketsOf(reps, rows[r].keys))] := revind[r];
      }
    }
  }

  /** Row 0 copied to row i. */
  method CopyFirst(lut: array2<int>, i: nat)
    requires 0 < i < lut.Length0
    modifies lut
    ensures forall j :: 0 <= j < lut.Length1 ==> lut[i, j] == old(lut[0, j])
    ensures forall h, j :: 0 <= h < lut.Length0 && 0 <= j < lut.Length1 && h != i ==> lut[h, j] == old(lut[h, j])
  {
    for j := 0 to lut.Length1
      invariant forall k :: 0 <= k < j ==> lut[i, k] == old(lut[0, k])
      invariant forall h, k :: 0 <= h < lut.Length0 && 0 <= k < lut.Length1 && h != i ==> lut[h, k] == old(lut[h, k])
    {
      lut[i, j] := lut[0, j];
    }
  }

  /** The table: -1 everywhere, then GPU by GPU the first GPU's row as a default and the GPU's own rows on top. */
  method FillLut(gpus: seq<string>, rows: seq<Row>, revind: seq<int>, reps: seq<seq<int>>) returns (lut: array2<int>)
    requires |revind| == |rows| && Placed(rows, reps) && StrictReps(reps)
    ensures fresh(lut) && lut.Length0 == |gpus| && lut.Length1 == Product(Bins(reps))
    ensures forall i, j :: 0 <= i < lut.Length0 && 0 <= j < lut.Length1 ==>
              lut[i, j] == CellOf(rows, revind, gpus, i, CellKeys(reps, j))
    ensures forall i, j :: 0 <= i < lut.Length0 && 0 <= j < lut.Length1 ==>
              Says(rows, gpus[i], gpus[0], CellKeys(reps, j), lut[i, j], RowIndex(revind), -1)
  {
    hide Product, CellKeys, Number, LastRow, Says;
    var cells := Product(Bins(reps));
    lut := new int[|gpus|, cells]((i, j) => -1);
    for i := 0 to |gpus|
      invariant forall h, j :: 0 <= h < i && 0 <= j < cells ==> lut[h, j] == CellOf(rows, revind, gpus, h, CellKeys(reps, j))
      invariant i == 0 ==> forall h, j :: 0 <= h < |gpus| && 0 <= j < cells ==> lut[h, j] == -1
    {
      if i > 0 { CopyFirst(lut, i); }
      Overlay(lut, i, gpus[i], rows, revind, reps);
    }
    forall i, j | 0 <= i < lut.Length0 && 0 <= j < lut.Length1
      ensures Says(rows, gpus[i], gpus[0], CellKeys(reps, j), lut[i, j], RowIndex(revind), -1)
    {
      CellOfSays(rows, revind, gpus, i, CellKeys(reps, j));
    }
  }

  // ---------------------------------------------------------------- narrowing

  /** numpy.iinfo(dtype).max for int8, int16 and int32 */
  function MaxOf(bits: nat): int
    requires bits == 8 || bits == 16 || bits == 32
  {
    if bits == 8 then 127 else if bits == 16 then 32767 else 2147483647
  }

  /** The first dtype whose maximum is above the number of signatures; the last one otherwise. */
  function LutBits(nsigs: nat): (bits: nat)
    ensures bits == 8 || bits == 16 || bits == 32
    ensures (bits == 8 <==> nsigs < 127) && (bits == 32 <==> nsigs >= 32767)
  {
    if nsigs < MaxOf(8) then 8 else if nsigs < MaxOf(16) then 16 else 32
  }

  /** astype: two's complement truncation */
  function Narrowed(v: int, bits: nat): int
    requires bits == 8 || bits == 16 || bits == 32
  {
    var modulus := 2 * MaxOf(bits) + 2;
    (v + MaxOf(bits) + 1) % modulus - MaxOf(bits) - 1
  }

  /** Narrowing loses nothing as long as the signatures can be numbered in an int32 at all. */
  lemma NarrowingIsLossless(v: int, nsigs: nat)
    requires -1 <= v < nsigs <= 0x8000_0000
    ensures Narrowed(v, LutBits(nsigs)) == v
  {
  }

  method Narrow(lut: array2<int>, nsigs: nat)
    requires nsigs <= 0x8000_0000
    requires forall i, j :: 0 <= i < lut.Length0 && 0 <= j < lut.Length1 ==> -1 <= lut[i, j] < nsigs
    modifies lut
    ensures forall i, j :: 0 <= i < lut.Length0 && 0 <= j < lut.Length1 ==> lut[i, j] == old(lut[i, j])
  {
    hide Narrowed, LutBits;
    var bits := LutBits(nsigs);
    for i := 0 to lut.Length0
      invariant forall h, j :: 0 <= h < lut.Length0 && 0 <= j < lut.Length1 ==> lut[h, j] == old(lut[h, j])
    {
      for j := 0 to lut.Length1
        invariant forall h, k :: 0 <= h < lut.Length0 && 0 <= k < lut.Length1 ==> lut[h, k] == old(lut[h, k])
      {
        NarrowingIsLossless(lut[i, j], nsigs);
        lut[i, j] := Narrowed(lut[i, j], bits);
      }
    }
  }

  // ---------------------------------------------------------------- build and look up

  /** translate_dataframe: representatives from the key columns, the filled table, narrowed. */
  method TranslateDataframe(gpus: seq<string>, rows: seq<Row>, nkeys: nat, sigs: seq<seq<int>>, revind: seq<int>)
    returns (reps: seq<seq<int>>, lut: array2<int>)
    requires Uniform(rows, nkeys) && Deduplicated(rows, sigs, revind) && |sigs| <= 0x8000_0000
    ensures reps == Representatives(rows, nkeys) && fresh(lut)
    ensures lut.Length0 == |gpus| && lut.Length1 == Product(Bins(reps))
    ensures forall i, j :: 0 <= i < lut.Length0 && 0 <= j < lut.Length1 ==>
              lut[i, j] == CellOf(rows, revind, gpus, i, CellKeys(reps, j))
    ensures forall i, j :: 0 <= i < lut.Length0 && 0 <= j < lut.Length1 ==>
              Says(rows, gpus[i], gpus[0], CellKeys(reps, j), lut[i, j], RowIndex(revind), -1)
  {
    hide Product, CellKeys, Number, LastRow, SortedUnique, Offered, Says;
    reps := Representatives(rows, nkeys);
    RowsPlaced(rows, nkeys);
    lut := FillLut(gpus, rows, revind, reps);
    Narrow(lut, |sigs|);
  }

  lemma RowsPlaced(rows: seq<Row>, nkeys: nat)
    requires Uniform(rows, nkeys)
    ensures var reps := Representatives(rows, nkeys); Placed(rows, reps) && StrictReps(reps)
  {
    hide SortedUnique;
    var reps := Representatives(rows, nkeys);
    forall r, k | 0 <= r < |rows| && 0 <= k < nkeys ensures rows[r].keys[k] in reps[k] { assert reps[k] == SortedUnique(rows, k); }
  }

  /** The bins of the run-time lengths. */
  function Binned(reps: seq<seq<int>>, xs: seq<int>): (t: seq<nat>)
    requires |xs| == |reps| && forall k :: 0 <= k < |reps| ==> |reps[k]| > 0
    ensures |t| == |reps| && forall k :: 0 <= k < |reps| ==> t[k] < |reps[k]| && t[k] == BinFrom(reps[k], xs[k], 0)
  {
    seq(|reps|, k requires 0 <= k < |reps| => BinFrom(reps[k], xs[k], 0))
  }

  /** The generated entry: index the table, give up when the index is no kernel's. */
  method Lookup(lut: array2<int>, reps: seq<seq<int>>, modNumber: nat, xs: seq<int>, total: nat) returns (kernel: Option<nat>)
    requires modNumber < lut.Length0 && lut.Length1 == Product(Bins(reps)) && |xs| == |reps|
    requires forall k :: 0 <= k < |reps| ==> |reps[k]| > 0
    ensures var t := Binned(reps, xs);
      && IsChoice(Bins(reps), t) && Number(Bins(reps), t) < lut.Length1
      && var cell := lut[modNumber, Number(Bins(reps), t)];
         kernel == if 0 <= cell < total then Some(cell) else None
  {
    hide Product, Number, BinFrom;
    var t := Binned(reps, xs);
    NumberInRange(Bins(reps), t);
    var kernelIndex := lut[modNumber, Number(Bins(reps), t)];
    if kernelIndex < 0 || kernelIndex >= total { return None; }
    return Some(kernelIndex);
  }

  /** The recorded key values that serve run-time lengths xs. */
  ghost predicate Clamped(reps: seq<seq<int>>, xs: seq<int>, keys: seq<int>)
    requires |xs| == |reps|
  {
    |keys| == |reps| && forall k :: 0 <= k < |reps| ==> ClampedKey(reps[k], xs[k], keys[k])
  }

  /** v is the smallest recorded value not below x, or the largest recorded value if all are below x. */
  ghost predicate ClampedKey(reps: seq<int>, x: int, v: int) {
    && v in reps
    && (if exists r :: r in reps && x <= r then x <= v && forall r :: r in reps && x <= r ==> v <= r
        else forall r :: r in reps ==> r <= v)
  }

  lemma BinIsClamped(reps: seq<int>, x: int)
    requires |reps| > 0 && Increasing(reps)
    ensures 0 <= BinFrom(reps, x, 0) < |reps| && ClampedKey(reps, x, reps[BinFrom(reps, x, 0)])
  {
    hide BinFrom;
    BinsToSmallestAbove(reps, x, 0);
    if x <= reps[|reps| - 1] {
      assert reps[|reps| - 1] in reps;
    } else {
      assert forall j :: 0 <= j < |reps| ==> reps[j] <= reps[|reps| - 1];
    }
  }

  /** There is only one clamped value, so the answer is determined. */
  lemma ClampedIsUnique(reps: seq<seq<int>>, xs: seq<int>, keys: seq<int>, other: seq<int>)
    requires |xs| == |reps| && Clamped(reps, xs, keys) && Clamped(reps, xs, other)
    ensures keys == other
  {
    forall k | 0 <= k < |reps| ensures keys[k] == other[k] {
      assert ClampedKey(reps[k], xs[k], keys[k]) && ClampedKey(reps[k], xs[k], other[k]);
    }
  }

  lemma BinnedKeysAreClamped(reps: seq<seq<int>>, xs: seq<int>)
    requires |xs| == |reps| && forall k :: 0 <= k < |reps| ==> |reps[k]| > 0 && Increasing(reps[k])
    ensures Clamped(reps, xs, KeysAt(reps, Binned(reps, xs)))
  {
    hide BinFrom, ClampedKey, Increasing;
    var keys := KeysAt(reps, Binned(reps, xs));
    forall k | 0 <= k < |reps| ensures ClampedKey(reps[k], xs[k], keys[k]) { BinIsClamped(reps[k], xs[k]); }
  }

  lemma RepresentativesExist(rows: seq<Row>, nkeys: nat)
    requires Uniform(rows, nkeys) && rows != []
    ensures forall k :: 0 <= k < nkeys ==> |Representatives(rows, nkeys)[k]| > 0 && Increasing(Representatives(rows, nkeys)[k])
  {
    hide SortedUnique;
    forall k | 0 <= k < nkeys ensures |SortedUnique(rows, k)| > 0 { assert rows[0].keys[k] in SortedUnique(rows, k); }
  }

  lemma CellOfBins(reps: seq<seq<int>>, xs: seq<int>)
    requires |xs| == |reps| && forall k :: 0 <= k < |reps| ==> |reps[k]| > 0
    ensures var n := Number(Bins(reps), Binned(reps, xs));
      n < Product(Bins(reps)) && CellKeys(reps, n) == KeysAt(reps, Binned(reps, xs))
  {
    hide BinFrom;
    DecodeNumbers(Bins(reps), Binned(reps, xs));
  }

  /** The recorded values of key k that serve length x: the smallest not below it, or else the largest. */
  ghost predicate ServesKey(rows: seq<Row>, k: nat, x: int, v: int)
    requires forall r :: 0 <= r < |rows| ==> k < |rows[r].keys|
  {
    && (exists r :: 0 <= r < |rows| && rows[r].keys[k] == v)
    && (if exists r :: 0 <= r < |rows| && x <= rows[r].keys[k]
        then x <= v && forall r :: 0 <= r < |rows| && x <= rows[r].keys[k] ==> v <= rows[r].keys[k]
        else forall r :: 0 <= r < |rows| ==> rows[r].keys[k] <= v)
  }

  ghost predicate Serves(rows: seq<Row>, nkeys: nat, xs: seq<int>, keys: seq<int>)
    requires Uniform(rows, nkeys) && |xs| == nkeys
  {
    |keys| == nkeys && forall k :: 0 <= k < nkeys ==> ServesKey(rows, k, xs[k], keys[k])
  }

  lemma ServesIsClamped(rows: seq<Row>, nkeys: nat, xs: seq<int>, keys: seq<int>)
    requires Uniform(rows, nkeys) && |xs| == nkeys
    ensures Serves(rows, nkeys, xs, keys) <==> Clamped(Representatives(rows, nkeys), xs, keys)
  {
    hide SortedUnique, ClampedKey, ServesKey;
    if |keys| == nkeys {
      forall k | 0 <= k < nkeys ensures ServesKey(rows, k, xs[k], keys[k]) == ClampedKey(Representatives(rows, nkeys)[k], xs[k], keys[k]) {
        ServedKeyIsClamped(rows, k, xs[k], keys[k]);
      }
    }
  }

  lemma ServedKeyIsClamped(rows: seq<Row>, k: nat, x: int, v: int)
    requires forall r :: 0 <= r < |rows| ==> k < |rows[r].keys|
    ensures ServesKey(rows, k, x, v) <==> ClampedKey(SortedUnique(rows, k), x, v)
  {
    var reps := SortedUnique(rows, k);
    hide SortedUnique;
    assert forall r :: 0 <= r < |rows| ==> rows[r].keys[k] in reps;
  }

  function RowSignature(rows: seq<Row>): int -> Option<seq<int>> { r => if 0 <= r < |rows| then Some(rows[r].sig) else None }

  /** The table refines the database: for every GPU of the functional and all run-time lengths, building the
      table and looking the lengths up gives the signature of the row recorded at the smallest values that are
      not below the lengths (clamped to the largest): the GPU's own row, else the first GPU's, else nothing. */
  method TunedSignature(gpus: seq<string>, rows: seq<Row>, nkeys: nat, sigs: seq<seq<int>>, revind: seq<int>, modNumber: nat, xs: seq<int>)
    returns (sig: Option<seq<int>>)
    requires Uniform(rows, nkeys) && Deduplicated(rows, sigs, revind) && |sigs| <= 0x8000_0000 && rows != []
    requires modNumber < |gpus| && |xs| == nkeys
    ensures exists keys :: Serves(rows, nkeys, xs, keys)
    ensures forall keys :: Serves(rows, nkeys, xs, keys) ==> Says(rows, gpus[modNumber], gpus[0], keys, sig, RowSignature(rows), None)
  {
    hide Product, Number, Clamped, CellKeys, Representatives, Says, Serves;
    RepresentativesExist(rows, nkeys);
    var reps, lut := TranslateDataframe(gpus, rows, nkeys, sigs, revind);
    CellOfBins(reps, xs);
    BinnedKeysAreClamped(reps, xs);
    var served := KeysAt(reps, Binned(reps, xs));
    ServesIsClamped(rows, nkeys, xs, served);
    var kernel := Lookup(lut, reps, modNumber, xs, |sigs|);
    sig := if kernel.Some? then Some(sigs[kernel.value]) else None;
    forall keys | Serves(rows, nkeys, xs, keys) ensures Says(rows, gpus[modNumber], gpus[0], keys, sig, RowSignature(rows), None) {
      ServesIsClamped(rows, nkeys, xs, keys);
      ClampedIsUnique(reps, xs, keys, served);
      SignatureSays(rows, sigs, revind, gpus[modNumber], gpus[0], keys, lut[modNumber, Number(Bins(reps), Binned(reps, xs))], sig);
    }
  }

  /** Looking up the index a cell says gives the signature the row says. */
  lemma SignatureSays(rows: seq<Row>, sigs: seq<seq<int>>, revind: seq<int>, own: string, first: string, keys: seq<int>,
                      cell: int, sig: Option<seq<int>>)
    requires Deduplicated(rows, sigs, revind) && Says(rows, own, first, keys, cell, RowIndex(revind), -1)
    requires sig == if 0 <= cell < |sigs| then Some(sigs[cell]) else None
    ensures Says(rows, own, first, keys, sig, RowSignature(rows), None)
  {
  }
}
