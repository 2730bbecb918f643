/** Goedel numbering of functionals: one number per combination of template-parameter choices, and the
    run-time computation that must find the same number from the arguments of a call. */
module Godel {
  import opened Arith
  import opened Options

  /** A template parameter. A choice is named by the value the run-time comparison sees. */
  class TemplateParameter {
    const choices: seq<int>
    var godelNumber: int

    constructor (choices: seq<int>)
      ensures this.choices == choices
    {
      this.choices, godelNumber := choices, 0;
    }
  }

  function Choices(ps: seq<TemplateParameter>): (cs: seq<seq<int>>)
    ensures |cs| == |ps|
  {
    seq(|ps|, i requires 0 <= i < |ps| => ps[i].choices)
  }

  function Counts(cs: seq<seq<int>>): (ns: seq<nat>)
    ensures |ns| == |cs|
  {
    seq(|cs|, i requires 0 <= i < |cs| => |cs[i]|)
  }

  function Product(ns: seq<nat>): nat { if ns == [] then 1 else ns[0] * Product(ns[1..]) }

  /** The number of combinations of the parameters after the i-th. */
  function Stride(ns: seq<nat>, i: nat): nat
    requires i < |ns|
  {
    Product(ns[i + 1..])
  }

  /** Cumulative products from the right, the first one trimmed, stored into the parameters. */
  method AssignGodelNumber(sortedParameters: seq<TemplateParameter>)
    requires forall i, j :: 0 <= i < j < |sortedParameters| ==> sortedParameters[i] != sortedParameters[j]
    modifies sortedParameters
    ensures forall i :: 0 <= i < |sortedParameters| ==>
              sortedParameters[i].godelNumber == Stride(Counts(Choices(sortedParameters)), i)
  {
    hide Counts;
    var ns := Counts(Choices(sortedParameters));
    var cumprod := CumProd(ns);
    var i := 0;
    while i < |ns|
      invariant 0 <= i <= |ns|
      invariant forall j :: 0 <= j < i ==> sortedParameters[j].godelNumber == cumprod[j + 1]
    {
      sortedParameters[i].godelNumber := cumprod[1..][i];
      i := i + 1;
    }
  }

  /** Cumulative products from the right, over the counts and a final one. */
  method CumProd(ns: seq<nat>) returns (cumprod: seq<nat>)
    ensures |cumprod| == |ns| + 1 && forall j :: 0 <= j <= |ns| ==> cumprod[j] == Product(ns[j..])
  {
    hide Product;
    var nchoices := ns + [1];
    cumprod := nchoices[|ns|..];
    var i := |ns|;
    ProductOfNone(ns);
    while i > 0
      invariant 0 <= i <= |ns| && |cumprod| == |ns| - i + 1
      invariant forall j :: i <= j <= |ns| ==> cumprod[j - i] == Product(ns[j..])
    {
      i := i - 1;
      ProductStep(ns, i);
      var next: nat := nchoices[i] * cumprod[0];
      assert next == Product(ns[i..]);
      cumprod := [next] + cumprod;
    }
  }

  lemma ProductOfNone(ns: seq<nat>)
    ensures Product(ns[|ns|..]) == 1
  {
  }

  lemma ProductStep(ns: seq<nat>, i: nat)
    requires i < |ns|
    ensures Product(ns[i..]) == ns[i] * Product(ns[i + 1..])
  {
    assert ns[i..][0] == ns[i] && ns[i..][1..] == ns[i + 1..];
  }

  // ---------------------------------------------------------------- functionals

  /** One choice index per parameter. */
  ghost predicate IsChoice(ns: seq<nat>, t: seq<nat>) { |t| == |ns| && forall i :: 0 <= i < |ns| ==> t[i] < ns[i] }

  /** itertools.product: the last parameter advances fastest. */
  function Tuples(ns: seq<nat>): seq<seq<nat>>
    decreases |ns|, 1
  {
    if ns == [] then [[]] else TuplesFrom(ns, 0)
  }

  /** The tuples whose first choice is d or later. */
  function TuplesFrom(ns: seq<nat>, d: nat): seq<seq<nat>>
    requires |ns| > 0 && d <= ns[0]
    decreases |ns|, 0, ns[0] - d
  {
    if d == ns[0] then [] else Prefixed(d, Tuples(ns[1..])) + TuplesFrom(ns, d + 1)
  }

  function Prefixed(d: nat, ts: seq<seq<nat>>): (r: seq<seq<nat>>)
    ensures |r| == |ts| && forall k :: 0 <= k < |r| ==> r[k] == [d] + ts[k]
  {
    seq(|ts|, k requires 0 <= k < |ts| => [d] + ts[k])
  }

  /** A functional's number: the sum over its parameters of choice index times stride. */
  function Weighted(ns: seq<nat>, t: seq<nat>, k: nat): nat
    requires k <= |ns| == |t|
  {
    if k == 0 then 0 else Weighted(ns, t, k - 1) + t[k - 1] * Stride(ns, k - 1)
  }

  function Number(ns: seq<nat>, t: seq<nat>): nat
    requires |ns| == |t|
  {
    Weighted(ns, t, |ns|)
  }

  /** The same number read as mixed-radix digits, the first parameter most significant. */
  lemma {:induction false} NumberUnfolds(ns: seq<nat>, t: seq<nat>, k: nat)
    requires 1 <= k <= |ns| == |t|
    ensures Weighted(ns, t, k) == t[0] * Product(ns[1..]) + Weighted(ns[1..], t[1..], k - 1)
  {
    if k > 1 {
      NumberUnfolds(ns, t, k - 1);
      assert ns[1..][k - 1..] == ns[k..];
    }
  }

  lemma {:induction false} NumberInRange(ns: seq<nat>, t: seq<nat>)
    requires IsChoice(ns, t)
    ensures Number(ns, t) < Product(ns)
  {
    if ns != [] {
      NumberUnfolds(ns, t, |ns|);
      NumberInRange(ns[1..], t[1..]);
      DigitsBelow(t[0], Number(ns[1..], t[1..]), Product(ns[1..]), ns[0]);
    }
  }

  lemma RestPositive(first: nat, rest: nat)
    requires first * rest > 0
    ensures first > 0 && rest > 0
  {
  }

  /** The combination with a given number. */
  function Decode(ns: seq<nat>, number: nat): (t: seq<nat>)
    requires number < Product(ns)
    ensures |t| == |ns|
  {
    if ns == [] then []
    else
      var rest := Product(ns[1..]);
      RestPositive(ns[0], rest);
      [number / rest] + Decode(ns[1..], number % rest)
  }

  /** Numbering is a bijection from combinations onto [0, product of the choice counts). */
  lemma {:induction false} NumberDecodes(ns: seq<nat>, number: nat)
    requires number < Product(ns)
    ensures IsChoice(ns, Decode(ns, number)) && Number(ns, Decode(ns, number)) == number
  {
    if ns != [] {
      var rest := Product(ns[1..]);
      RestPositive(ns[0], rest);
      var t := Decode(ns, number);
      assert t[1..] == Decode(ns[1..], number % rest);
      NumberDecodes(ns[1..], number % rest);
      NumberUnfolds(ns, t, |ns|);
      DivModBack(number, rest);
      QuotientBelow(number, rest, ns[0]);
    }
  }

  lemma {:induction false} DecodeNumbers(ns: seq<nat>, t: seq<nat>)
    requires IsChoice(ns, t)
    ensures Number(ns, t) < Product(ns) && Decode(ns, Number(ns, t)) == t
  {
    NumberInRange(ns, t);
    if ns != [] {
      NumberUnfolds(ns, t, |ns|);
      NumberInRange(ns[1..], t[1..]);
      DecodeNumbers(ns[1..], t[1..]);
      DivMod(t[0], Number(ns[1..], t[1..]), Product(ns[1..]));
    }
  }

  lemma DistinctNumbers(ns: seq<nat>, t: seq<nat>, u: seq<nat>)
    requires IsChoice(ns, t) && IsChoice(ns, u)
    ensures Number(ns, t) == Number(ns, u) <==> t == u
  {
    DecodeNumbers(ns, t);
    DecodeNumbers(ns, u);
  }

  /** gen_functionals enumerates all combinations in increasing order of their numbers, each once. */
  lemma {:induction false} EnumeratedInOrder(ns: seq<nat>)
    ensures |Tuples(ns)| == Product(ns)
    ensures forall k :: 0 <= k < |Tuples(ns)| ==> Tuples(ns)[k] == Decode(ns, k)
    decreases |ns|, 1
  {
    if ns != [] {
      EnumeratedInOrder(ns[1..]);
      EnumeratedFrom(ns, 0, 0);
    }
  }

  lemma {:induction false} EnumeratedFrom(ns: seq<nat>, d: nat, start: nat)
    requires |ns| > 0 && d <= ns[0] && start == d * Product(ns[1..]) && |Tuples(ns[1..])| == Product(ns[1..])
    requires forall k :: 0 <= k < |Tuples(ns[1..])| ==> Tuples(ns[1..])[k] == Decode(ns[1..], k)
    ensures start + |TuplesFrom(ns, d)| == Product(ns)
    ensures forall j :: 0 <= j < |TuplesFrom(ns, d)| ==> TuplesFrom(ns, d)[j] == Decode(ns, start + j)
    decreases ns[0] - d
  {
    hide Tuples, Product, Decode;
    if d < ns[0] {
      var rest, later := Product(ns[1..]), TuplesFrom(ns, d + 1);
      NextStart(d, rest);
      EnumeratedFrom(ns, d + 1, start + rest);
      var here := Prefixed(d, Tuples(ns[1..]));
      assert TuplesFrom(ns, d) == here + later;
      forall j | 0 <= j < rest ensures here[j] == Decode(ns, start + j) { FirstDigit(ns, d, start, j); }
      forall j | rest <= j < |here + later| ensures (here + later)[j] == Decode(ns, start + j) {
        assert (here + later)[j] == later[j - rest];
      }
    } else {
      WholeRange(ns, d, start);
    }
  }

  lemma WholeRange(ns: seq<nat>, d: nat, start: nat)
    requires |ns| > 0 && d == ns[0] && start == d * Product(ns[1..])
    ensures start == Product(ns)
  {
  }

  lemma NextStart(d: nat, rest: nat)
    ensures (d + 1) * rest == d * rest + rest
  {
  }

  lemma FirstDigit(ns: seq<nat>, d: nat, start: nat, j: nat)
    requires |ns| > 0 && start == d * Product(ns[1..]) && j < Product(ns[1..]) && start + j < Product(ns)
    ensures Decode(ns, start + j) == [d] + Decode(ns[1..], j)
  {
    DivMod(d, j, Product(ns[1..]));
  }

  // ---------------------------------------------------------------- the run-time number

  /** The last choice that equals the argument wins; -1 when none does. */
  function LastMatch(choices: seq<int>, arg: int): (number: int)
    ensures -1 <= number < |choices| && (number >= 0 ==> choices[number] == arg)
    ensures forall k :: number < k < |choices| ==> choices[k] != arg
  {
    if choices == [] then -1
    else if choices[|choices| - 1] == arg then |choices| - 1
    else LastMatch(choices[..|choices| - 1], arg)
  }

  /** The body emitted for one parameter: a chain of comparisons, each overwriting the number. */
  method MatchChoice(choices: seq<int>, arg: int) returns (number: int)
    ensures number == LastMatch(choices, arg)
  {
    number := -1;
    for k := 0 to |choices|
      invariant number == LastMatch(choices[..k], arg)
    {
      assert choices[..k + 1][..k] == choices[..k];
      if choices[k] == arg { number := k; }
    }
    assert choices[..|choices|] == choices;
  }

  /** Parameters with a single choice are not looked at. */
  predicate Supported(cs: seq<seq<int>>, args: seq<int>)
    requires |args| == |cs|
  {
    forall i :: 0 <= i < |cs| && |cs[i]| > 1 ==> LastMatch(cs[i], args[i]) >= 0
  }

  /** The choices the run-time computation settles on. */
  function Matched(cs: seq<seq<int>>, args: seq<int>): (t: seq<nat>)
    requires |args| == |cs| && Supported(cs, args)
    ensures |t| == |cs|
  {
    seq(|cs|, i requires 0 <= i < |cs| => if |cs[i]| > 1 then LastMatch(cs[i], args[i]) else 0)
  }

  /** The emitted code, one block per parameter with more than one choice. */
  method GodelNumber(ps: seq<TemplateParameter>, args: seq<int>) returns (sum: int)
    requires |args| == |ps|
    requires forall i :: 0 <= i < |ps| ==> ps[i].godelNumber == Stride(Counts(Choices(ps)), i)
    ensures var cs := Choices(ps);
      sum == if Supported(cs, args) then Number(Counts(cs), Matched(cs, args)) else -1
    ensures sum == -1 <==> exists i :: 0 <= i < |ps| && |ps[i].choices| > 1 && args[i] !in ps[i].choices
    ensures sum >= 0 ==> exists t: seq<nat> :: LastChoices(Choices(ps), args, t) && sum == Number(Counts(Choices(ps)), t)
  {
    hide Stride;
    ghost var cs := Choices(ps);
    sum := 0;
    for i := 0 to |ps|
      invariant forall j :: 0 <= j < i && |cs[j]| > 1 ==> LastMatch(cs[j], args[j]) >= 0
      invariant Supported(cs, args) ==> sum == Weighted(Counts(cs), Matched(cs, args), i)
    {
      if |ps[i].choices| > 1 {
        var number := MatchChoice(ps[i].choices, args[i]);
        if number < 0 { return -1; }
        sum := sum + number * ps[i].godelNumber;
      }
    }
    MatchedAreLast(cs, args);
  }

  /** For each parameter the last choice that equals the argument; for a parameter with one choice, that one. */
  ghost predicate LastChoices(cs: seq<seq<int>>, args: seq<int>, t: seq<nat>)
    requires |args| == |cs|
  {
    |t| == |cs| && forall i :: 0 <= i < |cs| ==>
      if |cs[i]| > 1 then t[i] < |cs[i]| && cs[i][t[i]] == args[i] && forall k :: t[i] < k < |cs[i]| ==> cs[i][k] != args[i]
      else t[i] == 0
  }

  lemma MatchedAreLast(cs: seq<seq<int>>, args: seq<int>)
    requires |args| == |cs|
    ensures Supported(cs, args) <==> forall i :: 0 <= i < |cs| && |cs[i]| > 1 ==> args[i] in cs[i]
    ensures Supported(cs, args) ==> LastChoices(cs, args, Matched(cs, args))
  {
    hide LastMatch;
    forall i | 0 <= i < |cs| ensures LastMatch(cs[i], args[i]) >= 0 <==> args[i] in cs[i] { MatchMeansMember(cs[i], args[i]); }
  }

  lemma MatchMeansMember(choices: seq<int>, arg: int)
    ensures LastMatch(choices, arg) >= 0 <==> arg in choices
  {
    hide LastMatch;
  }

  // ---------------------------------------------------------------- the run-time number finds the functional

  /** The arguments a functional is built for. */
  ghost function ArgsOf(cs: seq<seq<int>>, t: seq<nat>): (args: seq<int>)
    requires IsChoice(Counts(cs), t)
    ensures |args| == |cs|
  {
    seq(|cs|, i requires 0 <= i < |cs| => cs[i][t[i]])
  }

  ghost predicate DistinctChoices(cs: seq<seq<int>>) {
    forall i, a, b :: 0 <= i < |cs| && 0 <= a < b < |cs[i]| ==> cs[i][a] != cs[i][b]
  }

  lemma MatchedIsAChoice(cs: seq<seq<int>>, t: seq<nat>)
    requires IsChoice(Counts(cs), t)
    ensures Supported(cs, ArgsOf(cs, t)) && IsChoice(Counts(cs), Matched(cs, ArgsOf(cs, t)))
    ensures forall i :: 0 <= i < |cs| ==> t[i] <= Matched(cs, ArgsOf(cs, t))[i]
  {
    hide LastMatch;
    forall i | 0 <= i < |cs| && |cs[i]| > 1 ensures LastMatch(cs[i], ArgsOf(cs, t)[i]) >= t[i] {
      assert cs[i][t[i]] == ArgsOf(cs, t)[i];
    }
  }

  /** For all arguments of all functionals, the run-time number is the functional's own number exactly when
      no parameter lists a choice twice. */
  lemma RuntimeFindsFunctional(cs: seq<seq<int>>)
    requires forall i :: 0 <= i < |cs| ==> |cs[i]| >= 1
    ensures DistinctChoices(cs) <==>
            forall t :: IsChoice(Counts(cs), t) ==>
              Supported(cs, ArgsOf(cs, t)) && Number(Counts(cs), Matched(cs, ArgsOf(cs, t))) == Number(Counts(cs), t)
  {
    forall t | IsChoice(Counts(cs), t)
      ensures Supported(cs, ArgsOf(cs, t))
      ensures DistinctChoices(cs) ==> Matched(cs, ArgsOf(cs, t)) == t
    {
      MatchedIsAChoice(cs, t);
      if DistinctChoices(cs) { MatchedExactly(cs, t); }
    }
    if !DistinctChoices(cs) {
      var i, a, b :| 0 <= i < |cs| && 0 <= a < b < |cs[i]| && cs[i][a] == cs[i][b];
      RepeatMisses(cs, i, a, b);
    }
  }

  lemma MatchedExactly(cs: seq<seq<int>>, t: seq<nat>)
    requires DistinctChoices(cs) && IsChoice(Counts(cs), t) && Supported(cs, ArgsOf(cs, t))
    ensures Matched(cs, ArgsOf(cs, t)) == t
  {
    hide LastMatch;
    var m := Matched(cs, ArgsOf(cs, t));
    forall i | 0 <= i < |cs| ensures m[i] == t[i] {
      if |cs[i]| > 1 { assert cs[i][m[i]] == cs[i][t[i]]; }
    }
  }

  /** A functional that uses the first of two equal choices is taken for another one. */
  lemma RepeatMisses(cs: seq<seq<int>>, i: nat, a: nat, b: nat)
    requires forall j :: 0 <= j < |cs| ==> |cs[j]| >= 1
    requires i < |cs| && a < b < |cs[i]| && cs[i][a] == cs[i][b]
    ensures var ns := Counts(cs);
      exists t :: IsChoice(ns, t) && Supported(cs, ArgsOf(cs, t)) && Number(ns, Matched(cs, ArgsOf(cs, t))) != Number(ns, t)
  {
    var ns := Counts(cs);
    var t := seq(|cs|, j => 0)[i := a];
    assert IsChoice(ns, t);
    MatchedIsAChoice(cs, t);
    var m := Matched(cs, ArgsOf(cs, t));
    assert m[i] >= b by { LastMatchAtLeast(cs[i], ArgsOf(cs, t)[i], b); }
    DistinctNumbers(ns, m, t);
  }

  lemma LastMatchAtLeast(choices: seq<int>, arg: int, b: nat)
    requires b < |choices| && choices[b] == arg
    ensures LastMatch(choices, arg) >= b
  {
  }

  // ---------------------------------------------------------------- the dispatch table

  /** A functional: the architecture it is built for and its choices. */
  datatype Functional = Functional(arch: string, nths: seq<nat>)

  /** The generated function a table slot points at, named by architecture number and Goedel number. */
  datatype Slot = Slot(archNumber: nat, godelNumber: nat)

  ghost predicate Has(functionals: seq<Functional>, ns: seq<nat>, arch: string, number: nat)
    requires forall i :: 0 <= i < |functionals| ==> |functionals[i].nths| == |ns|
  {
    exists i :: 0 <= i < |functionals| && functionals[i].arch == arch && Number(ns, functionals[i].nths) == number
  }

  /** One row per architecture, one slot per number: a pointer where some functional has it, else null. */
  method TuneTableEntries(archs: seq<string>, functionals: seq<Functional>, ns: seq<nat>) returns (table: seq<seq<Option<Slot>>>)
    requires forall i :: 0 <= i < |functionals| ==> |functionals[i].nths| == |ns|
    ensures |table| == |archs|
    ensures forall a :: 0 <= a < |table| ==> |table[a]| == Product(ns)
    ensures forall a, g :: 0 <= a < |table| && 0 <= g < |table[a]| ==>
              table[a][g] == if Has(functionals, ns, archs[a], g) then Some(Slot(a, g)) else None
  {
    table := [];
    for a := 0 to |archs|
      invariant |table| == a
      invariant forall b :: 0 <= b < a ==> |table[b]| == Product(ns)
      invariant forall b, g :: 0 <= b < a && 0 <= g < |table[b]| ==>
                  table[b][g] == if Has(functionals, ns, archs[b], g) then Some(Slot(b, g)) else None
    {
      var row := TableRow(a, archs[a], functionals, ns);
      table := table + [row];
    }
  }

  method TableRow(archNumber: nat, targetArch: string, functionals: seq<Functional>, ns: seq<nat>) returns (row: seq<Option<Slot>>)
    requires forall i :: 0 <= i < |functionals| ==> |functionals[i].nths| == |ns|
    ensures |row| == Product(ns)
    ensures forall g :: 0 <= g < |row| ==>
              row[g] == if Has(functionals, ns, targetArch, g) then Some(Slot(archNumber, g)) else None
  {
    hide Product, Number;
    var godelNumbers: set<nat> := {};
    for i := 0 to |functionals|
      invariant forall g :: g in godelNumbers <==> Has(functionals[..i], ns, targetArch, g)
    {
      OneMoreFunctional(functionals[..i], functionals[i], ns, targetArch);
      assert functionals[..i + 1] == functionals[..i] + [functionals[i]];
      if functionals[i].arch == targetArch { godelNumbers := godelNumbers + {Number(ns, functionals[i].nths)}; }
    }
    assert functionals[..|functionals|] == functionals;
    row := [];
    for godelNumber := 0 to Product(ns)
      invariant |row| == godelNumber
      invariant forall g :: 0 <= g < |row| ==>
                  row[g] == if Has(functionals, ns, targetArch, g) then Some(Slot(archNumber, g)) else None
    {
      row := row + [if godelNumber in godelNumbers then Some(Slot(archNumber, godelNumber)) else None];
    }
  }

  lemma OneMoreFunctional(fs: seq<Functional>, f: Functional, ns: seq<nat>, arch: string)
    requires |f.nths| == |ns| && forall i :: 0 <= i < |fs| ==> |fs[i].nths| == |ns|
    ensures forall g :: Has(fs + [f], ns, arch, g) <==> Has(fs, ns, arch, g) || (f.arch == arch && Number(ns, f.nths) == g)
  {
    hide Number;
    var more := fs + [f];
    assert more[|fs|] == f && forall i :: 0 <= i < |fs| ==> more[i] == fs[i];
    forall g | Has(fs, ns, arch, g) ensures Has(more, ns, arch, g) {
      var i :| 0 <= i < |fs| && fs[i].arch == arch && Number(ns, fs[i].nths) == g;
      assert more[i].arch == arch;
    }
  }

  /** Dispatch: a call with a functional's arguments reaches a slot that is non-null exactly when that very
      functional was generated for the architecture, and the slot is its own. */
  lemma DispatchReachesFunctional(cs: seq<seq<int>>, functionals: seq<Functional>, arch: string, t: seq<nat>)
    requires (forall i :: 0 <= i < |cs| ==> |cs[i]| >= 1) && DistinctChoices(cs) && IsChoice(Counts(cs), t)
    requires forall i :: 0 <= i < |functionals| ==> |functionals[i].nths| == |cs| && IsChoice(Counts(cs), functionals[i].nths)
    ensures Supported(cs, ArgsOf(cs, t))
    ensures var number := Number(Counts(cs), Matched(cs, ArgsOf(cs, t)));
      && number < Product(Counts(cs))
      && (Has(functionals, Counts(cs), arch, number) <==> Functional(arch, t) in functionals)
  {
    hide ArgsOf, Matched, Number, Product;
    MatchedIsAChoice(cs, t);
    MatchedExactly(cs, t);
    var ns := Counts(cs);
    NumberInRange(ns, t);
    forall i | 0 <= i < |functionals| ensures Number(ns, functionals[i].nths) == Number(ns, t) <==> functionals[i].nths == t {
      DistinctNumbers(ns, functionals[i].nths, t);
    }
    if Functional(arch, t) in functionals {
      var i :| 0 <= i < |functionals| && functionals[i] == Functional(arch, t);
      assert functionals[i].arch == arch;
    }
  }
}
