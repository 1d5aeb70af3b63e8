/**
  Measurements on matrix-product states (tladder.cc lines 234-336).

  Tensor contraction is modelled symbolically. A Tensor names one site tensor
  of a state (possibly conjugated and primed) together with the gauge centre
  the state had when the tensor was read, since moving the centre rewrites
  the site tensors; or it names one site operator. A Word is
  the list of tensors multiplied together, in the order the code multiplies
  them, so contraction is concatenation (the free associative product). The
  library's contraction to a scalar, Dot, is a parameter `dot` on words.
  Because tensor contraction is also commutative, what a full contraction
  computes is fixed by the multiset of its factors; the lemmas below compare
  words through their multisets.
*/
module Measure {

  datatype Obs = Sx | Sz

  datatype Tensor =
    | Ket(site: int, gauge: int)        // the ket state's site tensor: psi.AA(j), psiA.AA(j)
    | Bra(site: int, gauge: int)        // conj(psi.AA(j)) of the same state
    | BraLink(site: int, gauge: int)    // conj(primelink(psiB.AA(j))): bond indices primed
    | BraPrimed(site: int, gauge: int)  // conj(primed(psiB.AA(j))): all indices primed
    | Op(kind: Obs, site: int)

  type Word = seq<Tensor>

  /**
    A matrix-product state of a fixed number of sites, as far as these
    measurements see it: the position of its orthogonality (gauge) centre,
    which `position` moves. Moving the centre leaves the represented state
    unchanged but rewrites its site tensors, so each tensor read from it is
    tagged with the centre at that moment.
  */
  class Chain {
    const length: nat
    var center: int

    constructor (length: nat, center: int)
      ensures this.length == length && this.center == center
    {
      this.length := length;
      this.center := center;
    }

    /** psi.position(j): move the gauge centre to site j. */
    method Position(j: int)
      requires 1 <= j <= length
      modifies this
      ensures center == j
    {
      center := j;
    }
  }

  /**
    The three-tensor contraction conj(psi.AA(j)) * O_j * psi.AA(j), with site
    j read in the state's current gauge. It is the expectation value of O_j
    when that gauge centre is j.
  */
  function LocalValue(psi: Chain, dot: Word -> real, kind: Obs, j: int): real
    reads psi
  {
    dot(LocalWord(kind, j, psi.center))
  }

  /** The local network of O_j at site j, with the site tensors read while the centre was at c. */
  function LocalWord(kind: Obs, j: int, c: int): Word
  {
    [Bra(j, c), Op(kind, j), Ket(j, c)]
  }

  /**
    printLocalMeasurements for a state without quantum numbers: for every
    site j, move the gauge centre to j and store <Sx_j> and <Sz_j> in vectors
    of N + 2 slots that start at -100, so slot 0 and slot N + 1 keep that
    value. The state is left with its centre at the last site.
  */
  method LocalMeasurements(psi: Chain, dot: Word -> real) returns (sx: array<real>, sz: array<real>)
    modifies psi
    ensures fresh(sx) && fresh(sz)
    ensures sx.Length == psi.length + 2 && sz.Length == psi.length + 2
    ensures sx[0] == -100.0 && sz[0] == -100.0
    ensures sx[psi.length + 1] == -100.0 && sz[psi.length + 1] == -100.0
    ensures forall j :: 1 <= j <= psi.length ==>
              sx[j] == dot(LocalWord(Sx, j, j)) && sz[j] == dot(LocalWord(Sz, j, j))
    ensures psi.center == if psi.length == 0 then old(psi.center) else psi.length
  {
    var n := psi.length;
    sx := new real[n + 2](_ => -100.0);
    sz := new real[n + 2](_ => -100.0);
    for j := 1 to n + 1
      invariant sx[0] == -100.0 && sz[0] == -100.0
      invariant sx[n + 1] == -100.0 && sz[n + 1] == -100.0
      invariant forall k :: 1 <= k < j ==>
                  sx[k] == dot(LocalWord(Sx, k, k)) && sz[k] == dot(LocalWord(Sz, k, k))
      invariant psi.center == if j == 1 then old(psi.center) else j - 1
    {
      psi.Position(j);
      sx[j] := LocalValue(psi, dot, Sx, j);
      sz[j] := LocalValue(psi, dot, Sz, j);
    }
  }

  /**
    The fold of site k: psiA.AA(k) * conj(primelink(psiB.AA(k))), no
    operator, with psiA read in gauge ga and psiB in gauge gb.
  */
  function Fold(k: int, ga: int, gb: int): Word
  {
    [Ket(k, ga), BraLink(k, gb)]
  }

  /** The folds of sites lo..hi, multiplied left to right. */
  function Folds(lo: int, hi: int, ga: int, gb: int): Word
    decreases hi - lo
  {
    if hi < lo then [] else Folds(lo, hi - 1, ga, gb) + Fold(hi, ga, gb)
  }

  /**
    R[k] of the right-to-left pass: R[N-1] is conj(primelink(psiB.AA(N))) *
    psiA.AA(N), and R[k-1] multiplies R[k] by the two site-k tensors. R[N] is
    the empty product: nothing lies to the right of the last site.
  */
  function RightWord(n: int, k: int, ga: int, gb: int): Word
    requires 0 <= k <= n
    decreases n - k
  {
    if k == n then [] else RightWord(n, k + 1, ga, gb) + [BraLink(k + 1, gb), Ket(k + 1, ga)]
  }

  /**
    The network contracted for <psiB|Sz_j|psiA> as the loop multiplies it:
    the left product L over sites 1..j-1 (absent at j = 1), the site-j ket,
    the operator and the primed site-j bra, closed by R[j], or at j = N by the
    primed bra alone.
  */
  function SweepWord(n: int, j: int, ga: int, gb: int): Word
    requires 1 <= j <= n
  {
    var ket := [Ket(j, ga)] + Folds(1, j - 1, ga, gb) + [Op(Sz, j)];
    if j == n then [BraPrimed(j, gb)] + ket else RightWord(n, j, ga, gb) + (ket + [BraPrimed(j, gb)])
  }

  /**
    The right-to-left pass of printOffDiagMeasurements: a vector of N + 2
    partial products in which R[k], for k from N - 1 down to 1, multiplies
    everything to the right of site k (tladder.cc:292, 297-303). The site
    tensors are read in the states' current gauges. When N is 1 the first
    write lands in R[0].
  */
  method RightPass(psiA: Chain, psiB: Chain) returns (R: array<Word>)
    requires psiA.length >= 1
    ensures fresh(R) && R.Length == psiA.length + 2
    ensures forall k :: 1 <= k <= psiA.length - 1 ==> R[k] == RightWord(psiA.length, k, psiA.center, psiB.center)
  {
    var n := psiA.length;
    ghost var ga, gb := psiA.center, psiB.center;
    R := new Word[n + 2](_ => []);
    R[n - 1] := [BraLink(n, psiB.center), Ket(n, psiA.center)];
    var j := n - 1;
    while j > 1
      invariant 0 <= j <= n - 1
      invariant forall k :: j <= k <= n - 1 ==> R[k] == RightWord(n, k, ga, gb)
    {
      R[j - 1] := R[j];
      R[j - 1] := R[j - 1] + [BraLink(j, psiB.center), Ket(j, psiA.center)];
      j := j - 1;
    }
  }

  /**
    printOffDiagMeasurements: the transfer-matrix sweep giving <psiB|Sz_j|psiA>
    for every site j. Both states are first gauged to site 1, and every site
    tensor is read in that gauge. The source reads the site count from psiA
    and indexes psiB up to it, and its first step indexes R at N - 1, so both
    states need the same number N >= 1 of sites.
  */
  method OffDiagMeasurements(psiA: Chain, psiB: Chain, dot: Word -> real) returns (m: seq<real>)
    requires psiA.length >= 1 && psiB.length == psiA.length
    modifies psiA, psiB
    ensures psiA.center == 1 && psiB.center == 1
    ensures |m| == psiA.length
    ensures forall j :: 1 <= j <= psiA.length ==> m[j - 1] == dot(SweepWord(psiA.length, j, 1, 1))
  {
    var n := psiA.length;
    psiA.Position(1);
    psiB.Position(1);
    var R := RightPass(psiA, psiB);

    var L: Word := [];
    m := [];
    for j := 1 to n + 1
      invariant |m| == j - 1
      invariant forall i :: 1 <= i < j ==> m[i - 1] == dot(SweepWord(n, i, 1, 1))
      invariant L == Folds(1, j - 1, 1, 1)
    {
      var ket := [Ket(j, psiA.center)];
      if j != 1 {
        ket := ket + L;
      }
      ket := ket + [Op(Sz, j)];
      assert ket == [Ket(j, 1)] + Folds(1, j - 1, 1, 1) + [Op(Sz, j)] by {
        if j == 1 { assert Folds(1, 0, 1, 1) == []; }
      }
      var network;
      if j == n {
        network := [BraPrimed(j, psiB.center)] + ket;
      } else {
        ket := ket + [BraPrimed(j, psiB.center)];
        network := R[j] + ket;
      }
      assert network == SweepWord(n, j, 1, 1);
      m := m + [dot(network)];

      if j == 1 {
        L := [Ket(j, psiA.center), BraLink(j, psiB.center)];
      } else {
        L := L + [Ket(j, psiA.center)];
        L := L + [BraLink(j, psiB.center)];
      }
      assert L == Folds(1, j, 1, 1) by {
        if j == 1 { assert Folds(1, 0, 1, 1) == []; }
      }
    }
  }

  /** Site k of the full network for <psiB|Sz_j|psiA>: the operator sandwiched at k == j, a plain fold elsewhere. */
  function SiteWord(k: int, j: int, ga: int, gb: int): Word
  {
    if k == j then [Ket(k, ga), Op(Sz, k), BraPrimed(k, gb)] else Fold(k, ga, gb)
  }

  /** The brute-force network over sites 1..n with the operator inserted at site j. */
  function Network(n: int, j: int, ga: int, gb: int): Word
    decreases n
  {
    if n <= 0 then [] else Network(n - 1, j, ga, gb) + SiteWord(n, j, ga, gb)
  }

  /** The sandwiched site j of the network: ket, operator and primed bra. */
  function Sandwich(j: int, ga: int, gb: int): multiset<Tensor>
  {
    multiset{Ket(j, ga), Op(Sz, j), BraPrimed(j, gb)}
  }

  /** After the right pass, R[k] holds exactly the folds of the sites to the right of k. */
  lemma {:induction false} RightWordFolds(n: int, k: int, ga: int, gb: int)
    requires 0 <= k <= n
    ensures multiset(RightWord(n, k, ga, gb)) == multiset(Folds(k + 1, n, ga, gb))
    decreases n - k
  {
    if k < n {
      RightWordFolds(n, k + 1, ga, gb);
      FoldsSplitFirst(k + 1, n, ga, gb);
    }
  }

  /** The folds of lo..hi are the fold of lo together with the folds of lo+1..hi. */
  lemma {:induction false} FoldsSplitFirst(lo: int, hi: int, ga: int, gb: int)
    requires lo <= hi
    ensures multiset(Folds(lo, hi, ga, gb)) == multiset(Fold(lo, ga, gb)) + multiset(Folds(lo + 1, hi, ga, gb))
    decreases hi - lo
  {
    if lo < hi {
      FoldsSplitFirst(lo, hi - 1, ga, gb);
    }
  }

  /** The brute-force network splits at the operator site into left folds, the sandwiched site, and right folds. */
  lemma {:induction false} NetworkSplit(n: int, j: int, ga: int, gb: int)
    requires 1 <= j
    ensures n < j ==> Network(n, j, ga, gb) == Folds(1, n, ga, gb)
    ensures j <= n ==> multiset(Network(n, j, ga, gb))
                       == multiset(Folds(1, j - 1, ga, gb)) + Sandwich(j, ga, gb) + multiset(Folds(j + 1, n, ga, gb))
    decreases n
  {
    if n > 0 {
      NetworkSplit(n - 1, j, ga, gb);
    }
  }

  /** The factors of the value emitted at site j: left folds, the site-j sandwich, and right folds. */
  lemma SweepWordFactors(n: int, j: int, ga: int, gb: int)
    requires 1 <= j <= n
    ensures multiset(SweepWord(n, j, ga, gb))
            == multiset(Folds(1, j - 1, ga, gb)) + Sandwich(j, ga, gb) + multiset(Folds(j + 1, n, ga, gb))
  {
    var left := Folds(1, j - 1, ga, gb);
    var ket := [Ket(j, ga)] + left + [Op(Sz, j)];
    if j == n {
      assert SweepWord(n, j, ga, gb) == [BraPrimed(j, gb)] + ket;
      assert Folds(n + 1, n, ga, gb) == [];
      SandwichFactors(left, [], j, ga, gb);
    } else {
      RightWordFolds(n, j, ga, gb);
      assert SweepWord(n, j, ga, gb) == RightWord(n, j, ga, gb) + (ket + [BraPrimed(j, gb)]);
      SandwichFactors(left, RightWord(n, j, ga, gb), j, ga, gb);
    }
  }

  /** Factor count of a site-j sandwich placed between a left and a right product. */
  lemma SandwichFactors(left: Word, right: Word, j: int, ga: int, gb: int)
    ensures var ket := [Ket(j, ga)] + left + [Op(Sz, j)];
            && multiset([BraPrimed(j, gb)] + ket) == multiset(left) + Sandwich(j, ga, gb)
            && multiset(right + (ket + [BraPrimed(j, gb)])) == multiset(left) + Sandwich(j, ga, gb) + multiset(right)
  {
  }

  /**
    The value emitted at site j contracts exactly the brute-force network:
    every site's ket and bra once, with the operator at site j only.
  */
  lemma SweepIsNetwork(n: int, j: int, ga: int, gb: int)
    requires 1 <= j <= n
    ensures multiset(SweepWord(n, j, ga, gb)) == multiset(Network(n, j, ga, gb))
  {
    assert multiset(SiteWord(j, j, ga, gb)) == Sandwich(j, ga, gb);
    NetworkSplit(n, j, ga, gb);
    SweepWordFactors(n, j, ga, gb);
  }

  /** A contraction to a scalar that does not depend on the order of its factors. */
  ghost predicate OrderFree(dot: Word -> real)
  {
    forall u: Word, v: Word :: multiset(u) == multiset(v) ==> dot(u) == dot(v)
  }

  /**
    For an order-free contraction, the sweep's value at site j equals the
    full contraction of both chains with the operator inserted at site j.
  */
  lemma SweepMatchesBruteForce(dot: Word -> real, n: int, j: int, ga: int, gb: int)
    requires OrderFree(dot)
    requires 1 <= j <= n
    ensures dot(SweepWord(n, j, ga, gb)) == dot(Network(n, j, ga, gb))
  {
    SweepIsNetwork(n, j, ga, gb);
  }

  /** A fold factor: a ket of psiA in gauge ga or a link-primed bra of psiB in gauge gb. */
  predicate FoldFactor(t: Tensor, ga: int, gb: int)
  {
    (t.Ket? && t.gauge == ga) || (t.BraLink? && t.gauge == gb)
  }

  /** Number of factors of Folds(lo, hi) equal to t. */
  lemma {:induction false} FoldsCount(lo: int, hi: int, ga: int, gb: int, t: Tensor)
    ensures multiset(Folds(lo, hi, ga, gb))[t] ==
              if FoldFactor(t, ga, gb) && lo <= t.site <= hi then 1 else 0
    decreases hi - lo
  {
    if lo <= hi {
      FoldsCount(lo, hi - 1, ga, gb, t);
    }
  }

  /** How often a tensor t occurs among the factors of the value emitted at site j. */
  lemma SweepCount(n: int, j: int, ga: int, gb: int, t: Tensor)
    requires 1 <= j <= n
    ensures multiset(SweepWord(n, j, ga, gb))[t] ==
              (if FoldFactor(t, ga, gb) && 1 <= t.site <= j - 1 then 1 else 0)
              + (if t == Ket(j, ga) || t == Op(Sz, j) || t == BraPrimed(j, gb) then 1 else 0)
              + (if FoldFactor(t, ga, gb) && j + 1 <= t.site <= n then 1 else 0)
  {
    SweepWordFactors(n, j, ga, gb);
    FoldsCount(1, j - 1, ga, gb, t);
    FoldsCount(j + 1, n, ga, gb, t);
    SiteCount(j, ga, gb, t);
    var left := multiset(Folds(1, j - 1, ga, gb));
    var right := multiset(Folds(j + 1, n, ga, gb));
    assert multiset(SweepWord(n, j, ga, gb))[t] == left[t] + Sandwich(j, ga, gb)[t] + right[t];
  }

  /** Number of factors of the site-j sandwich equal to t: its three tensors are distinct. */
  lemma SiteCount(j: int, ga: int, gb: int, t: Tensor)
    ensures Sandwich(j, ga, gb)[t] == if t == Ket(j, ga) || t == Op(Sz, j) || t == BraPrimed(j, gb) then 1 else 0
  {
  }

  /**
    In the network behind the value emitted at site j, the operator occurs
    once, at site j; every site's ket occurs once; site j is closed by the
    primed bra and every other site by the link-primed bra.
  */
  lemma OperatorOnlyAtSite(n: int, j: int, k: int, ga: int, gb: int)
    requires 1 <= j <= n && 1 <= k <= n
    ensures multiset(SweepWord(n, j, ga, gb))[Op(Sz, k)] == if k == j then 1 else 0
    ensures multiset(SweepWord(n, j, ga, gb))[Ket(k, ga)] == 1
    ensures multiset(SweepWord(n, j, ga, gb))[BraPrimed(k, gb)] == if k == j then 1 else 0
    ensures multiset(SweepWord(n, j, ga, gb))[BraLink(k, gb)] == if k == j then 0 else 1
  {
    SweepCount(n, j, ga, gb, Op(Sz, k));
    SweepCount(n, j, ga, gb, Ket(k, ga));
    SweepCount(n, j, ga, gb, BraPrimed(k, gb));
    SweepCount(n, j, ga, gb, BraLink(k, gb));
  }

  /**
    Every site tensor in the value emitted at site j was read in one gauge per
    state: psiA's tensors in gauge ga and psiB's in gauge gb.
  */
  lemma {:induction false} SweepSingleGauge(n: int, j: int, ga: int, gb: int, t: Tensor)
    requires 1 <= j <= n
    requires t in multiset(SweepWord(n, j, ga, gb))
    ensures t.Ket? ==> t.gauge == ga
    ensures t.BraLink? || t.BraPrimed? ==> t.gauge == gb
    ensures !t.Bra?
  {
    SweepCount(n, j, ga, gb, t);
  }

  /**
    On two sites each value is a single local contraction closed by the other
    site's fold: no left or right product longer than one site is formed.
  */
  lemma TwoSiteBoundary()
    ensures SweepWord(2, 1, 1, 1) == [BraLink(2, 1), Ket(2, 1), Ket(1, 1), Op(Sz, 1), BraPrimed(1, 1)]
    ensures SweepWord(2, 2, 1, 1) == [BraPrimed(2, 1), Ket(2, 1), Ket(1, 1), BraLink(1, 1), Op(Sz, 2)]
  {
    assert Folds(1, 0, 1, 1) == [];
    assert Folds(1, 1, 1, 1) == [Ket(1, 1), BraLink(1, 1)];
  }
}
