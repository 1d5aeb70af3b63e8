/**
  The product-state ansatz that seeds every variational search of the ladder:
  a Neel pattern over the N = 2*nx sites (site i is down when i is odd, up when
  i is even), optionally biased toward the triplet sector by forcing sites 1
  and 2 up (tladder.cc, initState, lines 398-407, 531-540 and 763-765).
*/
module Ansatz {

  datatype Spin = Up | Dn

  /** The Neel value of site i (1-based). */
  function NeelSpin(i: int): Spin
  {
    if i % 2 == 1 then Dn else Up
  }

  /** The value the ansatz gives site i (1-based). */
  function SiteSpin(i: int, triplet: bool): Spin
  {
    if triplet && (i == 1 || i == 2) then Up else NeelSpin(i)
  }

  /** The ansatz over sites 1..N; element k holds site k + 1. */
  function InitSites(n: nat, triplet: bool): (s: seq<Spin>)
    ensures |s| == n
  {
    seq(n, k => SiteSpin(k + 1, triplet))
  }

  /** Twice the total Sz of a product state: the number of up sites minus the number of down sites. */
  function UpMinusDn(s: seq<Spin>): int
  {
    if s == [] then 0
    else UpMinusDn(s[..|s| - 1]) + (if s[|s| - 1] == Up then 1 else -1)
  }

  /**
    Fills the ansatz site by site, then overwrites sites 1 and 2 when the
    triplet sector is requested. The array is 0-based: a[i - 1] is site i.
    The source indexes sites 1 and 2 unconditionally, so the triplet option
    needs at least two sites.
  */
  method MakeInitState(n: nat, triplet: bool) returns (a: array<Spin>)
    requires triplet ==> n >= 2
    ensures fresh(a)
    ensures a[..] == InitSites(n, triplet)
  {
    a := new Spin[n](_ => Up);
    for i := 1 to n + 1
      invariant forall k :: 0 <= k < i - 1 ==> a[k] == NeelSpin(k + 1)
    {
      a[i - 1] := if i % 2 == 1 then Dn else Up;
    }
    if triplet {
      a[0] := Up;
      a[1] := Up;
    }
    assert forall k :: 0 <= k < n ==> a[k] == SiteSpin(k + 1, triplet);
  }

  /** The ansatz grows by one site at the right end. */
  lemma InitSitesSnoc(n: nat, triplet: bool)
    ensures InitSites(n + 1, triplet) == InitSites(n, triplet) + [SiteSpin(n + 1, triplet)]
  {
  }

  /** The plain Neel state has total Sz zero on an even number of sites and -1/2 on an odd one. */
  lemma {:induction false} NeelMagnetisation(n: nat)
    ensures UpMinusDn(InitSites(n, false)) == if n % 2 == 0 then 0 else -1
  {
    if n > 0 {
      NeelMagnetisation(n - 1);
      InitSitesSnoc(n - 1, false);
      assert InitSites(n, false)[..n - 1] == InitSites(n - 1, false);
    }
  }

  /**
    The triplet option raises twice the total Sz by exactly 2, so on the
    ladder's even number of sites the ansatz lies in the Sz = +1 sector.
  */
  lemma {:induction false} TripletMagnetisation(n: nat)
    requires n >= 2
    ensures UpMinusDn(InitSites(n, true)) == UpMinusDn(InitSites(n, false)) + 2
  {
    if n == 2 {
      assert InitSites(2, true) == [Up, Up];
      assert InitSites(2, false) == [Dn, Up];
      assert [Up, Up][..1] == [Up];
      assert [Dn, Up][..1] == [Dn];
      assert [Up][..0] == [] && [Dn][..0] == [];
    } else {
      TripletMagnetisation(n - 1);
      InitSitesSnoc(n - 1, true);
      InitSitesSnoc(n - 1, false);
      assert InitSites(n, true)[..n - 1] == InitSites(n - 1, true);
      assert InitSites(n, false)[..n - 1] == InitSites(n - 1, false);
    }
  }

  /**
    The triplet override changes site 1 only (site 2 is already up in the Neel
    pattern) and leaves every other site as it was.
  */
  lemma TripletChangesOnlySiteOne(n: nat)
    requires n >= 2
    ensures InitSites(n, true)[0] == Up && InitSites(n, false)[0] == Dn
    ensures forall k :: 1 <= k < n ==> InitSites(n, true)[k] == InitSites(n, false)[k]
  {
  }
}
