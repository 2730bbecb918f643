/** Kernel names: the build packs their parts into one string and stores offsets; the run time rebuilds the
    name from C strings at those offsets and must arrive at the name the binary was stored under. */
module StringRegistry {
  import opened CStrings

  // ---------------------------------------------------------------- packed strings

  /** The packed data: every string followed by a NUL, in the order of registration. */
  function Packed(keys: seq<string>): string {
    if keys == [] then "" else Packed(keys[..|keys| - 1]) + keys[|keys| - 1] + ['\0']
  }

  function Offset(keys: seq<string>, i: nat): nat
    requires i <= |keys|
  {
    |Packed(keys[..i])|
  }

  lemma {:induction false} PackedGrows(keys: seq<string>, i: nat)
    requires i <= |keys|
    ensures Packed(keys[..i]) <= Packed(keys)
    decreases |keys|
  {
    var n := |keys|;
    if i == n {
      assert keys[..n] == keys;
    } else {
      PackedGrows(keys[..n - 1], i);
      assert keys[..n - 1][..i] == keys[..i];
    }
  }

  lemma KeyInPlace(keys: seq<string>, i: nat)
    requires i < |keys|
    ensures Packed(keys[..i]) + keys[i] + ['\0'] <= Packed(keys)
  {
    hide Packed;
    PackedGrows(keys, i + 1);
    PackedStep(keys, i);
  }

  lemma PackedStep(keys: seq<string>, i: nat)
    requires i < |keys|
    ensures Packed(keys[..i + 1]) == Packed(keys[..i]) + keys[i] + ['\0']
  {
    assert keys[..i + 1][..i] == keys[..i];
  }

  /** The C string at a string's offset is that string exactly when it holds no NUL, whatever the others hold. */
  lemma PackedStringComesBack(keys: seq<string>, i: nat)
    requires i < |keys|
    ensures Offset(keys, i) <= |Packed(keys)|
    ensures CString(Packed(keys), '\0', Offset(keys, i)) == keys[i] <==> NulFree(keys[i], '\0')
  {
    KeyInPlace(keys, i);
    hide Packed, FirstNul, CString;
    StoredStringReads(Packed(keys), '\0', Packed(keys[..i]), keys[i]);
    ReadsWholeExactly(keys[i], '\0');
  }

  class Registry {
    var strings: seq<string>
    var offsets: map<string, nat>
    var size: nat

    ghost predicate Valid()
      reads this
    {
      && (forall s :: s in offsets <==> s in strings)
      && (forall i :: 0 <= i < |strings| ==> strings[i] in offsets && offsets[strings[i]] == Offset(strings, i))
      && size == |Packed(strings)|
    }

    constructor ()
      ensures Valid() && strings == []
    {
      strings, offsets, size := [], map[], 0;
    }

    /** A known string keeps its offset; a new one is appended. Either way what was registered stays where it is,
        and the offset returned is where the string lies in the data. */
    method Register(s: string) returns (offset: nat)
      requires Valid()
      modifies this
      ensures Valid()
      ensures strings == if s in old(strings) then old(strings) else old(strings) + [s]
      ensures s in offsets && offset == offsets[s]
      ensures forall r :: r in old(offsets) ==> r in offsets && offsets[r] == old(offsets[r])
      ensures IsOffset(strings, s, offset)
    {
      hide Packed, Offset;
      if s in offsets {
        offset := offsets[s];
        return;
      }
      offset := size;
      Appended(strings, s);
      strings, offsets, size := strings + [s], offsets[s := offset], offset + |s| + 1;
      assert strings[|strings| - 1] == s;
    }

    method GetData() returns (data: string)
      requires Valid()
      ensures data == Packed(strings)
    {
      data := "";
      for i := 0 to |strings|
        invariant data == Packed(strings[..i])
      {
        assert strings[..i + 1][..i] == strings[..i];
        data := data + strings[i] + ['\0'];
      }
      assert strings[..|strings|] == strings;
    }
  }

  lemma Appended(strings: seq<string>, s: string)
    ensures var more := strings + [s];
      && |Packed(more)| == |Packed(strings)| + |s| + 1
      && Offset(more, |strings|) == |Packed(strings)|
      && forall i :: 0 <= i < |strings| ==> Offset(more, i) == Offset(strings, i)
  {
    var more := strings + [s];
    assert more[..|strings|] == strings;
    hide Packed;
    forall i | 0 <= i < |strings| ensures more[..i] == strings[..i] { }
  }

  // ---------------------------------------------------------------- names

  function Joined(parts: seq<string>): string {
    if parts == [] then "" else if |parts| == 1 then parts[0] else parts[0] + ";" + Joined(parts[1..])
  }

  /** name=value pairs, as the perf and compiler-option sections list them. */
  function Section(pairs: seq<(string, string)>): string { Joined(Parts(pairs)) }

  function Parts(pairs: seq<(string, string)>): (parts: seq<string>)
    ensures |parts| == |pairs|
  {
    seq(|pairs|, i requires 0 <= i < |pairs| => pairs[i].0 + "=" + pairs[i].1)
  }

  const COMPILER_OPTIONS := ["waves_per_eu", "num_warps", "num_stages"]

  /** zip(COMPILER_OPTIONS, copts), whose section is the compiler-option section */
  function CoptPairs(copts: seq<string>): seq<(string, string)> {
    var n := if |copts| < 3 then |copts| else 3;
    seq(n, i requires 0 <= i < n => (COMPILER_OPTIONS[i], copts[i]))
  }

  /** The name a binary is stored under. */
  function HsacoEntryName(func: string, perfSection: string, coptSection: string, arch: string): string {
    ";;#F;" + func + ";;#P;" + perfSection + ";;#CO;" + coptSection + ";;arch=" + arch
  }

  /** What a name looks like, mark by mark, and the section of the compiler options in it. */
  lemma EntryNameShape(copts: seq<string>)
    requires |copts| == 3
    ensures HsacoEntryName("D", "M", "C", "g") == ";;#F;D;;#P;M;;#CO;C;;arch=g"
    ensures Section(CoptPairs(copts)) == "waves_per_eu=" + copts[0] + (";" + ("num_warps=" + copts[1] + (";" + ("num_stages=" + copts[2]))))
  {
    var parts := Parts(CoptPairs(copts));
    assert parts[0] == "waves_per_eu" + "=" + copts[0] && parts[1] == "num_warps" + "=" + copts[1] && parts[2] == "num_stages" + "=" + copts[2];
    assert Joined(parts[1..][1..]) == parts[2];
    assert Joined(parts[1..]) == parts[1] + ";" + parts[2];
    assert "waves_per_eu" + "=" == "waves_per_eu=" && "num_warps" + "=" == "num_warps=" && "num_stages" + "=" == "num_stages=";
    JoinedThree(parts);
  }

  lemma JoinedThree(parts: seq<string>)
    requires |parts| == 3
    ensures Joined(parts) == parts[0] + (";" + (parts[1] + (";" + parts[2])))
  {
    assert parts[1..][1..] == [parts[2]];
    assert Joined(parts[1..]) == parts[1] + ";" + parts[2];
    assert parts[0] + ";" + (parts[1] + ";" + parts[2]) == parts[0] + (";" + (parts[1] + (";" + parts[2])));
  }

  method ConstructStemName(func: string, psel: string, copt: string, arch: string) returns (ret: string)
    ensures ret == HsacoEntryName(func, psel, copt, arch)
  {
    ret := "";
    ret := ret + ";;#F;";
    ret := ret + func;
    ret := ret + ";;#P;";
    ret := ret + psel;
    ret := ret + ";;#CO;";
    ret := ret + copt;
    ret := ret + ";;arch=";
    ret := ret + arch;
  }

  /** Where a kernel's sections lie in the packed data. */
  datatype CompactMeta = CompactMeta(pselOffset: nat, coptOffset: nat)

  /** codegen_compact_kernels: register both sections of every signature. */
  method CompactKernels(r: Registry, sigs: seq<(string, string)>) returns (metas: seq<CompactMeta>)
    requires r.Valid()
    modifies r
    ensures r.Valid() && old(r.strings) <= r.strings && |metas| == |sigs|
    ensures forall i :: 0 <= i < |sigs| ==> IsOffset(r.strings, sigs[i].0, metas[i].pselOffset)
    ensures forall i :: 0 <= i < |sigs| ==> IsOffset(r.strings, sigs[i].1, metas[i].coptOffset)
  {
    hide Packed, Offset, IsOffset, Registry.Valid;
    metas := [];
    for i := 0 to |sigs|
      invariant r.Valid() && old(r.strings) <= r.strings && |metas| == i
      invariant forall k :: 0 <= k < i ==> IsOffset(r.strings, sigs[k].0, metas[k].pselOffset)
      invariant forall k :: 0 <= k < i ==> IsOffset(r.strings, sigs[k].1, metas[k].coptOffset)
    {
      ghost var was := r.strings;
      var psel := r.Register(sigs[i].0);
      ghost var between := r.strings;
      var copt := r.Register(sigs[i].1);
      OffsetsStay(was, r.strings);
      OffsetsStay(between, r.strings);
      metas := metas + [CompactMeta(psel, copt)];
    }
  }

  ghost predicate IsOffset(strings: seq<string>, s: string, offset: nat) {
    exists i :: 0 <= i < |strings| && strings[i] == s && offset == Offset(strings, i)
  }

  lemma OffsetsStay(strings: seq<string>, more: seq<string>)
    requires strings <= more
    ensures forall s, offset :: IsOffset(strings, s, offset) ==> IsOffset(more, s, offset)
  {
    hide Packed;
    forall s, offset | IsOffset(strings, s, offset) ensures IsOffset(more, s, offset) {
      var i :| 0 <= i < |strings| && strings[i] == s && offset == Offset(strings, i);
      assert more[..i] == strings[..i];
    }
  }

  /** The name rebuilt from the offsets is the name the binary was stored under. */
  lemma StemIsEntryName(strings: seq<string>, psel: string, copt: string, m: CompactMeta, func: string, arch: string)
    requires IsOffset(strings, psel, m.pselOffset) && IsOffset(strings, copt, m.coptOffset)
    requires NulFree(psel, '\0') && NulFree(copt, '\0')
    ensures var data := Packed(strings);
      && m.pselOffset <= |data| && m.coptOffset <= |data|
      && HsacoEntryName(func, CString(data, '\0', m.pselOffset), CString(data, '\0', m.coptOffset), arch)
         == HsacoEntryName(func, psel, copt, arch)
  {
    hide Packed, CString, Offset;
    var i :| 0 <= i < |strings| && strings[i] == psel && m.pselOffset == Offset(strings, i);
    var j :| 0 <= j < |strings| && strings[j] == copt && m.coptOffset == Offset(strings, j);
    PackedStringComesBack(strings, i);
    PackedStringComesBack(strings, j);
  }

  // ---------------------------------------------------------------- names tell kernels apart

  predicate HasAt(s: string, mark: string, i: nat) { i + |mark| <= |s| && s[i..i + |mark|] == mark }

  ghost predicate Contains(s: string, mark: string) { exists i :: HasAt(s, mark, i) }

  /** A mark of three characters that begins with two semicolons and does not end in one. */
  predicate IsMark(mark: string) { |mark| == 3 && mark[0] == ';' && mark[1] == ';' && mark[2] != ';' }

  /** Text before a mark it does not hold is determined. */
  lemma SplitAtMark(a: string, b: string, x: string, y: string, mark: string)
    requires IsMark(mark) && !Contains(a, mark) && !Contains(b, mark) && a + (mark + x) == b + (mark + y)
    ensures a == b && x == y
  {
    NoEarlierMark(a, b, x, y, mark);
    NoEarlierMark(b, a, y, x, mark);
    assert a + mark + x == a + (mark + x) && b + mark + y == b + (mark + y);
    var whole := a + mark + x;
    assert whole[..|a|] == a && whole[..|b|] == b && whole[|a + mark|..] == x && whole[|b + mark|..] == y;
  }

  lemma NoEarlierMark(a: string, b: string, x: string, y: string, mark: string)
    requires IsMark(mark) && !Contains(b, mark)
    ensures a + mark + x == b + mark + y ==> |a| >= |b|
  {
    var whole, other := a + mark + x, b + mark + y;
    assert forall k :: 0 <= k < 3 ==> whole[|a| + k] == mark[k] && other[|b| + k] == mark[k];
    assert !HasAt(b, mark, |a|);
    if |a| + 3 <= |b| { assert b[|a|..|a| + 3] == other[|a|..|a| + 3]; }
  }

  /** Kernels that differ in function, parameters, compiler options or architecture have different names. */
  lemma EntryNamesDistinct(func: string, psel: string, copt: string, arch: string,
                           func': string, psel': string, copt': string, arch': string)
    requires !Contains(func, ";;#") && !Contains(func', ";;#") && !Contains(psel, ";;#") && !Contains(psel', ";;#")
    requires !Contains(copt, ";;a") && !Contains(copt', ";;a")
    ensures HsacoEntryName(func, psel, copt, arch) == HsacoEntryName(func', psel', copt', arch') <==>
            func == func' && psel == psel' && copt == copt' && arch == arch'
  {
    if HsacoEntryName(func, psel, copt, arch) == HsacoEntryName(func', psel', copt', arch') {
      hide Contains;
      var last, last' := "rch=" + arch, "rch=" + arch';
      var options, options' := copt + (";;a" + last), copt' + (";;a" + last');
      var middle, middle' := "CO;" + options, "CO;" + options';
      var params, params' := psel + (";;#" + middle), psel' + (";;#" + middle');
      var rest, rest' := "P;" + params, "P;" + params';
      Regrouped(func, psel, copt, arch);
      Regrouped(func', psel', copt', arch');
      AfterPrefix(";;#F;", func + (";;#" + rest), func' + (";;#" + rest'));
      SplitAtMark(func, func', rest, rest', ";;#");
      AfterPrefix("P;", params, params');
      SplitAtMark(psel, psel', middle, middle', ";;#");
      AfterPrefix("CO;", options, options');
      SplitAtMark(copt, copt', last, last', ";;a");
      AfterPrefix("rch=", arch, arch');
    }
  }

  lemma AfterPrefix(p: string, x: string, y: string)
    requires p + x == p + y
    ensures x == y
  {
    assert (p + x)[|p|..] == x && (p + y)[|p|..] == y;
  }

  lemma Regrouped(func: string, psel: string, copt: string, arch: string)
    ensures HsacoEntryName(func, psel, copt, arch)
         == ";;#F;" + (func + (";;#" + ("P;" + (psel + (";;#" + ("CO;" + (copt + (";;a" + ("rch=" + arch)))))))))
  {
  }

  predicate NoSemicolon(s: string) { forall i :: 0 <= i < |s| ==> s[i] != ';' }

  predicate Clean(pairs: seq<(string, string)>) {
    forall i :: 0 <= i < |pairs| ==> NoSemicolon(pairs[i].0) && NoSemicolon(pairs[i].1)
  }

  predicate CleanParts(parts: seq<string>) { forall i :: 0 <= i < |parts| ==> |parts[i]| > 0 && NoSemicolon(parts[i]) }

  lemma PartsAreClean(pairs: seq<(string, string)>)
    requires Clean(pairs)
    ensures CleanParts(Parts(pairs))
  {
  }

  /** Joining parts without semicolons never puts two semicolons side by side. */
  lemma {:induction false} JoinedHasNoDouble(parts: seq<string>)
    requires CleanParts(parts)
    ensures var j := Joined(parts);
      && (parts != [] ==> |j| > 0 && j[0] != ';')
      && forall i :: 0 <= i && i + 1 < |j| ==> !(j[i] == ';' && j[i + 1] == ';')
  {
    if |parts| > 1 { JoinedHasNoDouble(parts[1..]); }
  }

  lemma SectionHasNoMark(pairs: seq<(string, string)>, mark: string)
    requires Clean(pairs) && IsMark(mark)
    ensures !Contains(Section(pairs), mark)
  {
    PartsAreClean(pairs);
    JoinedHasNoDouble(Parts(pairs));
    hide Joined, Parts;
    var j := Section(pairs);
    assert forall i: nat :: HasAt(j, mark, i) ==> j[i] == j[i..i + 3][0] && j[i + 1] == j[i..i + 3][1];
  }

  lemma {:induction false} JoinedIsInjective(ps: seq<string>, qs: seq<string>)
    requires CleanParts(ps) && CleanParts(qs) && |ps| == |qs| && Joined(ps) == Joined(qs)
    ensures ps == qs
  {
    if |ps| > 1 {
      FirstPart(ps[0], qs[0], Joined(ps[1..]), Joined(qs[1..]));
      JoinedIsInjective(ps[1..], qs[1..]);
      assert ps == [ps[0]] + ps[1..] && qs == [qs[0]] + qs[1..];
    }
  }

  lemma NotShorter(p: string, q: string, x: string, y: string)
    requires NoSemicolon(q)
    ensures p + ";" + x == q + ";" + y ==> |p| >= |q|
  {
    assert (p + ";" + x)[|p|] == ';' && (|p| < |q| ==> (q + ";" + y)[|p|] == q[|p|]);
  }

  lemma FirstPart(p: string, q: string, x: string, y: string)
    requires NoSemicolon(p) && NoSemicolon(q) && p + ";" + x == q + ";" + y
    ensures p == q && x == y
  {
    NotShorter(p, q, x, y);
    NotShorter(q, p, y, x);
    var a, b := p + ";" + x, q + ";" + y;
    assert a[..|p|] == p && b[..|q|] == q && a[|p| + 1..] == x && b[|q| + 1..] == y;
  }

  ghost predicate SameNames(ps: seq<(string, string)>, qs: seq<(string, string)>) {
    |ps| == |qs| && forall i :: 0 <= i < |ps| ==> ps[i].0 == qs[i].0
  }

  lemma SectionIsInjective(ps: seq<(string, string)>, qs: seq<(string, string)>)
    requires Clean(ps) && Clean(qs) && SameNames(ps, qs)
    ensures Section(ps) == Section(qs) <==> ps == qs
  {
    if Section(ps) == Section(qs) {
      PartsAreClean(ps);
      PartsAreClean(qs);
      JoinedIsInjective(Parts(ps), Parts(qs));
      forall i | 0 <= i < |ps| ensures ps[i] == qs[i] {
        assert Parts(ps)[i] == ps[i].0 + "=" + ps[i].1 && Parts(qs)[i] == qs[i].0 + "=" + qs[i].1;
        AfterPrefix(ps[i].0 + "=", ps[i].1, qs[i].1);
      }
    }
  }

  /** Two kernels built from the same parameters share a name exactly when all their choices, performance
      values, compiler options and architectures agree, as long as no value holds a semicolon. */
  lemma SameNameSameKernel(func: seq<(string, string)>, perf: seq<(string, string)>, copts: seq<string>, arch: string,
                           func': seq<(string, string)>, perf': seq<(string, string)>, copts': seq<string>, arch': string)
    requires SameNames(func, func') && SameNames(perf, perf') && |copts| == |copts'| == 3
    requires Clean(func) && Clean(func') && Clean(perf) && Clean(perf')
    requires forall i :: 0 <= i < 3 ==> NoSemicolon(copts[i]) && NoSemicolon(copts'[i])
    ensures HsacoEntryName(Section(func), Section(perf), Section(CoptPairs(copts)), arch)
         == HsacoEntryName(Section(func'), Section(perf'), Section(CoptPairs(copts')), arch')
       <==> func == func' && perf == perf' && copts == copts' && arch == arch'
  {
    OptionsClean(copts);
    OptionsClean(copts');
    var co, co' := CoptPairs(copts), CoptPairs(copts');
    assert co == co' <==> copts == copts' by { OptionsInjective(copts, copts'); }
    hide Section, HsacoEntryName, Contains, CoptPairs, Clean;
    SectionHasNoMark(func, ";;#");
    SectionHasNoMark(func', ";;#");
    SectionHasNoMark(perf, ";;#");
    SectionHasNoMark(perf', ";;#");
    SectionHasNoMark(co, ";;a");
    SectionHasNoMark(co', ";;a");
    EntryNamesDistinct(Section(func), Section(perf), Section(co), arch, Section(func'), Section(perf'), Section(co'), arch');
    SectionIsInjective(func, func');
    SectionIsInjective(perf, perf');
    OptionNames(copts, copts');
    SectionIsInjective(co, co');
  }

  lemma OptionsClean(copts: seq<string>)
    requires |copts| == 3 && forall i :: 0 <= i < 3 ==> NoSemicolon(copts[i])
    ensures Clean(CoptPairs(copts))
  {
  }

  lemma OptionNames(copts: seq<string>, copts': seq<string>)
    requires |copts| == |copts'| == 3
    ensures SameNames(CoptPairs(copts), CoptPairs(copts'))
  {
  }

  lemma OptionsInjective(copts: seq<string>, copts': seq<string>)
    requires |copts| == |copts'| == 3
    ensures CoptPairs(copts) == CoptPairs(copts') <==> copts == copts'
  {
    if CoptPairs(copts) == CoptPairs(copts') {
      forall i | 0 <= i < 3 ensures copts[i] == copts'[i] { assert CoptPairs(copts)[i].1 == CoptPairs(copts')[i].1; }
    }
  }
}
