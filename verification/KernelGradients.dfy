/** What dQ, dK and dV of the two backward kernels are in terms of the exact gradients: every term times an
    explicit factor that the decimal constants leave, one when they agree. */
module KernelGradients {
  import opened RealSums
  import opened Attention
  import opened Gradients
  import opened SoftmaxGradient
  import opened Slopes
  import opened Derivatives
  import opened BackwardKernels

  /** The term of a key in dQ, and of a query in dK and dV, times the factor of the pair. */
  ghost function DqFactored(E: real -> real, Lg: real -> real, h: Head, g: Grad, log2e: real, log2b: real, ln2: real, m: int, d: int): int -> real
    requires IsExp(E) && h.Valid() && h.smScale != 0.0
  {
    n => PairFactor(E, Lg, h, log2e, log2b, ln2, m, n) * (TrueDs(E, h, g, log2e, m, n) * h.k(n, d))
  }

  ghost function DkFactored(E: real -> real, Lg: real -> real, h: Head, g: Grad, log2e: real, log2b: real, ln2: real, n: int, d: int): int -> real
    requires IsExp(E) && h.Valid() && h.smScale != 0.0
  {
    m => PairFactor(E, Lg, h, log2e, log2b, ln2, m, n) * (TrueDs(E, h, g, log2e, m, n) * h.q(m, d))
  }

  ghost function DvFactored(E: real -> real, Lg: real -> real, h: Head, g: Grad, log2e: real, log2b: real, ln2: real, n: int, d: int): int -> real
    requires IsExp(E) && h.Valid() && h.smScale != 0.0
  {
    m => PairFactor(E, Lg, h, log2e, log2b, ln2, m, n) * (TrueDropped(E, h, log2e, m, n) * g.dO(m, d))
  }

  /** The forward pass and the preprocess kernel have been over every row. */
  ghost predicate AllRowsStored(E: real -> real, Lg: real -> real, h: Head, g: Grad, log2e: real, ln2: real) {
    forall m :: 0 <= m < h.seqlenQ ==> StoredRow(E, Lg, h, g, log2e, ln2, m)
  }

  lemma DqIsFactored(E: real -> real, Lg: real -> real, h: Head, g: Grad, log2e: real, log2b: real, ln2: real, m: int, d: int)
    requires StoredRow(E, Lg, h, g, log2e, ln2, m)
    ensures DqAt(E, h, g, log2b, m, d) == Sum(DqFactored(E, Lg, h, g, log2e, log2b, ln2, m, d), 0, h.seqlenK) * h.smScale
  {
    hide Sum, DsAt, TrueDs, PairFactor, LseAt, DeltaAt;
    forall n ensures DqTerms(E, h, g, log2b, m)(d)(n) == DqFactored(E, Lg, h, g, log2e, log2b, ln2, m, d)(n) {
      StoredPair(E, Lg, h, g, log2e, log2b, ln2, m, n);
      FactorOut(PairFactor(E, Lg, h, log2e, log2b, ln2, m, n), TrueDs(E, h, g, log2e, m, n), h.k(n, d));
    }
    SumEqual(DqTerms(E, h, g, log2b, m)(d), DqFactored(E, Lg, h, g, log2e, log2b, ln2, m, d), 0, h.seqlenK);
  }

  lemma DkDvAreFactored(E: real -> real, Lg: real -> real, h: Head, g: Grad, log2e: real, log2b: real, ln2: real, n: int, d: int)
    requires IsExp(E) && h.Valid() && h.smScale != 0.0 && AllRowsStored(E, Lg, h, g, log2e, ln2)
    ensures DkSum(E, h, g, log2b, n, d) == Sum(DkFactored(E, Lg, h, g, log2e, log2b, ln2, n, d), 0, h.seqlenQ)
    ensures DvSum(E, h, g, log2b, n, d) == Sum(DvFactored(E, Lg, h, g, log2e, log2b, ln2, n, d), 0, h.seqlenQ)
  {
    hide Sum, DsAt, TrueDs, DroppedProbAt, TrueDropped, PairFactor, StoredRow;
    forall m | 0 <= m < h.seqlenQ
      ensures DkTerms(E, h, g, log2b, n)(d)(m) == DkFactored(E, Lg, h, g, log2e, log2b, ln2, n, d)(m)
      ensures DvTerms(E, h, g, log2b, n)(d)(m) == DvFactored(E, Lg, h, g, log2e, log2b, ln2, n, d)(m)
    {
      StoredPair(E, Lg, h, g, log2e, log2b, ln2, m, n);
      FactorOut(PairFactor(E, Lg, h, log2e, log2b, ln2, m, n), TrueDs(E, h, g, log2e, m, n), h.q(m, d));
      FactorOut(PairFactor(E, Lg, h, log2e, log2b, ln2, m, n), TrueDropped(E, h, log2e, m, n), g.dO(m, d));
    }
    SumEqual(DkTerms(E, h, g, log2b, n)(d), DkFactored(E, Lg, h, g, log2e, log2b, ln2, n, d), 0, h.seqlenQ);
    SumEqual(DvTerms(E, h, g, log2b, n)(d), DvFactored(E, Lg, h, g, log2e, log2b, ln2, n, d), 0, h.seqlenQ);
  }

  // ---------------------------------------------------------------- exact constants

  /** Constants that agree leave no factor. */
  lemma ExactFactor(E: real -> real, Lg: real -> real, h: Head, log2e: real, ln2: real, m: int, n: int)
    requires IsExp(E) && h.smScale != 0.0 && ln2 * RCP_LN2 == 1.0
    ensures PairFactor(E, Lg, h, log2e, log2e, ln2, m, n) == 1.0
  {
    hide LseBase2At, PairFactor, ExponentError;
    PairFactorIsRowFactor(E, Lg, h, log2e, ln2, m, n);
    ErrorVanishes(LseBase2At(E, Lg, h, log2e, m), log2e, log2e, ln2, 0.0);
    ExpZero(E);
  }

  lemma ExactTerms(E: real -> real, Lg: real -> real, h: Head, g: Grad, log2e: real, ln2: real, m: int, n: int, d: int)
    requires IsExp(E) && h.Valid() && h.smScale != 0.0 && ln2 * RCP_LN2 == 1.0
    ensures DqFactored(E, Lg, h, g, log2e, log2e, ln2, m, d)(n) == ColTerm(TrueDsFn(E, h, g, log2e, m), h.k, d)(n)
    ensures DkFactored(E, Lg, h, g, log2e, log2e, ln2, n, d)(m) == ColTerm(TrueDsCol(E, h, g, log2e, n), h.q, d)(m)
    ensures DvFactored(E, Lg, h, g, log2e, log2e, ln2, n, d)(m) == ColTerm(TrueDvFn(E, h, log2e, n), g.dO, d)(m)
  {
    ExactFactor(E, Lg, h, log2e, ln2, m, n);
    hide TrueDs, TrueDropped, PairFactor;
  }

  /** With exact constants the kernels' sums are the exact gradients. */
  lemma ExactConstantsGiveDq(E: real -> real, Lg: real -> real, h: Head, g: Grad, log2e: real, ln2: real, m: int, d: int)
    requires StoredRow(E, Lg, h, g, log2e, ln2, m) && ln2 * RCP_LN2 == 1.0
    ensures DqAt(E, h, g, log2e, m, d) == TrueDq(E, h, g, log2e, m, d)
  {
    hide Sum, DqFactored, ColTerm, DqAt, LseAt, DeltaAt, TrueDsFn;
    DqIsFactored(E, Lg, h, g, log2e, log2e, ln2, m, d);
    forall n ensures DqFactored(E, Lg, h, g, log2e, log2e, ln2, m, d)(n) == ColTerm(TrueDsFn(E, h, g, log2e, m), h.k, d)(n) {
      ExactTerms(E, Lg, h, g, log2e, ln2, m, n, d);
    }
    SumEqual(DqFactored(E, Lg, h, g, log2e, log2e, ln2, m, d), ColTerm(TrueDsFn(E, h, g, log2e, m), h.k, d), 0, h.seqlenK);
  }

  lemma ExactConstantsGiveDkDv(E: real -> real, Lg: real -> real, h: Head, g: Grad, log2e: real, ln2: real, n: int, d: int)
    requires IsExp(E) && h.Valid() && h.smScale != 0.0 && AllRowsStored(E, Lg, h, g, log2e, ln2) && ln2 * RCP_LN2 == 1.0
    ensures DkSum(E, h, g, log2e, n, d) * h.smScale == TrueDk(E, h, g, log2e, n, d)
    ensures DvSum(E, h, g, log2e, n, d) == TrueDv(E, h, g, log2e, n, d)
  {
    hide Sum, DkFactored, DvFactored, ColTerm, DkSum, DvSum, AllRowsStored, TrueDsCol, TrueDvFn;
    DkDvAreFactored(E, Lg, h, g, log2e, log2e, ln2, n, d);
    forall m
      ensures DkFactored(E, Lg, h, g, log2e, log2e, ln2, n, d)(m) == ColTerm(TrueDsCol(E, h, g, log2e, n), h.q, d)(m)
      ensures DvFactored(E, Lg, h, g, log2e, log2e, ln2, n, d)(m) == ColTerm(TrueDvFn(E, h, log2e, n), g.dO, d)(m)
    {
      ExactTerms(E, Lg, h, g, log2e, ln2, m, n, d);
    }
    SumEqual(DkFactored(E, Lg, h, g, log2e, log2e, ln2, n, d), ColTerm(TrueDsCol(E, h, g, log2e, n), h.q, d), 0, h.seqlenQ);
    SumEqual(DvFactored(E, Lg, h, g, log2e, log2e, ln2, n, d), ColTerm(TrueDvFn(E, h, log2e, n), g.dO, d), 0, h.seqlenQ);
  }

  // ---------------------------------------------------------------- a group of query heads

  /** The loss of all query heads that share a kv head, along a move of K. */
  ghost function GroupLosses(E: real -> real, shared: Head, xs: int -> QueryHead, log2e: real, x: Tensor): int -> (real -> real)
    requires IsExp(E) && forall j, t :: MoveK(HeadOf(shared, xs(j)), x)(t).Valid()
  {
    j => LossAlong(E, MoveK(HeadOf(shared, xs(j)), x), xs(j).grad, log2e)
  }

  ghost function GroupLoss(E: real -> real, shared: Head, xs: int -> QueryHead, log2e: real): int -> real
    requires IsExp(E) && GroupValid(shared, xs)
  {
    j => Loss(E, HeadOf(shared, xs(j)), xs(j).grad, log2e)
  }

  ghost function GroupRates(E: real -> real, shared: Head, xs: int -> QueryHead, log2e: real, lam: real, x: Tensor): int -> real
    requires IsExp(E) && GroupValid(shared, xs)
  {
    j => Rate(lam, log2e, Sum(DkRows(E, HeadOf(shared, xs(j)), xs(j).grad, log2e, x), 0, shared.seqlenK))
  }

  /** Along any move of a shared K the loss of the whole group changes at the rate of the group's dK sums. */
  lemma GroupDkIsTheDerivative(E: real -> real, shared: Head, xs: int -> QueryHead, groupSize: nat, log2e: real, lam: real, x: Tensor,
                               loss: real -> real)
    requires IsExp(E) && GroupValid(shared, xs) && Expands(E, 1.0, lam)
    requires forall j, t :: MoveK(HeadOf(shared, xs(j)), x)(t).Valid()
    requires forall t :: loss(t) == Sum(AtArg(GroupLosses(E, shared, xs, log2e, x), t), 0, groupSize)
    ensures Expands(loss, Sum(GroupLoss(E, shared, xs, log2e), 0, groupSize), Sum(GroupRates(E, shared, xs, log2e, lam, x), 0, groupSize))
  {
    hide Sum, Expands, LossAlong, Loss, DkRows, Rate;
    forall j ensures Expands(GroupLosses(E, shared, xs, log2e, x)(j), GroupLoss(E, shared, xs, log2e)(j), GroupRates(E, shared, xs, log2e, lam, x)(j)) {
      assert HeadOf(shared, xs(j)).Valid();
      DkIsTheDerivative(E, HeadOf(shared, xs(j)), xs(j).grad, log2e, lam, x);
    }
    SlopeSum(GroupLosses(E, shared, xs, log2e, x), GroupLoss(E, shared, xs, log2e), GroupRates(E, shared, xs, log2e, lam, x), 0, groupSize, loss);
  }
}
