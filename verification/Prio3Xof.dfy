/** Prio3Count over its real expansion: XofTurboShake128 with rejection sampling. */
module Prio3Xof {
  import opened Bytes
  import opened Poly
  import opened Prio3
  import opened Sponge
  import opened XofFormat
  import opened Xof
  import F = Field64

  /** How many stream words an expansion to n elements may look at. */
  type Budget = (seq<byte>, seq<byte>, seq<byte>, nat) -> nat

  /** Every stream a framed input seeds holds n words below p within its budget. */
  ghost predicate Ample(perm: State -> State, budget: Budget) {
    forall seed: seq<byte>, dst: seq<byte>, binder: seq<byte>, n: nat :: |seed| <= 255 && |dst| <= 65535 ==>
      |Accepted(perm, XofInput(seed, dst, binder), 0, budget(seed, dst, binder, n))| >= n
  }

  /** The expansion as a function: the first n accepted words of the seeded stream. */
  function Expansion(perm: State -> State, budget: Budget, seed: seq<byte>, dst: seq<byte>, binder: seq<byte>,
      n: nat): (r: seq<Elt>)
    ensures |r| == n
  {
    if |seed| > 255 then Zeros(n)
    else
      var words := Accepted(perm, XofInput(seed, dst, binder), 0, budget(seed, dst, binder, n));
      if |words| < n then Zeros(n) else words[..n]
  }

  function XofExpander(perm: State -> State, budget: Budget): Expander {
    (seed, dst, binder, n) => Expansion(perm, budget, seed, dst, binder, n)
  }

  /** It is an expansion Prio3Count can be built on. */
  lemma XofIsExpander(shares: nat, ctx: seq<byte>, perm: State -> State, budget: Budget)
    requires 2 <= shares < 256
    ensures Count(shares, ctx, XofExpander(perm, budget)).Valid()
  {
    hide Expansion;
  }

  /** On ample streams, Prio3Count's expansion is what the sponge computes, errors included. */
  method ExpandByXof(perm: State -> State, ghost budget: Budget, c: Count, seed: seq<byte>, usage: nat,
      binder: seq<byte>, n: nat)
    returns (r: F.Result<seq<Elt>>)
    requires Ample(perm, budget) && c.Valid() && c.expand == XofExpander(perm, budget)
    ensures r.Ok? <==> c.Expand(seed, usage, binder, n).Ok?
    ensures r.Ok? ==> r == c.Expand(seed, usage, binder, n)
  {
    hide Accepted, XofInput, DomainSeparationTag;
    r := ExpandIntoVecField64(perm, seed, c.Dst(usage), binder, n, budget(seed, c.Dst(usage), binder, n));
  }
}
