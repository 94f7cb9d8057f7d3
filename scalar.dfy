/** Loss values as the tensor runtime produces them: an exact real, or NaN.
    Every mean in the loss divides a sum by a count; when the count is zero
    the sum is empty or fully masked, so the quotient is IEEE 0/0 = NaN, and
    NaN then absorbs every sum and product it enters. */
module Scalar {
  import opened Base

  datatype Num = Fin(v: real) | NaN

  function Add(a: Num, b: Num): (r: Num)
    ensures r.Fin? <==> a.Fin? && b.Fin?
    ensures r.Fin? ==> r.v == a.v + b.v
  {
    if a.Fin? && b.Fin? then Fin(a.v + b.v) else NaN
  }

  /** `c * a` for a Python or configuration constant `c`. */
  function Scale(c: real, a: Num): (r: Num)
    ensures r.Fin? <==> a.Fin?
    ensures r.Fin? ==> r.v == c * a.v
  {
    if a.Fin? then Fin(c * a.v) else NaN
  }

  /** A sum divided by a count: NaN when the count is zero. */
  function MeanOver(total: Num, count: nat): (r: Num)
    ensures r.Fin? <==> total.Fin? && count > 0
    ensures r.Fin? ==> r.v == total.v / count as real
  {
    if count == 0 then NaN else if total.Fin? then Fin(total.v / count as real) else NaN
  }

  /** `torch.sum` / a chain of `+=` over scalar tensors. */
  function NumSum(s: seq<Num>): Num
  {
    if s == [] then Fin(0.0) else Add(s[0], NumSum(s[1..]))
  }

  /** The values of a sequence known to be finite. */
  function Values(s: seq<Num>): (vs: seq<real>)
    requires forall i :: 0 <= i < |s| ==> s[i].Fin?
    ensures |vs| == |s| && forall i :: 0 <= i < |s| ==> vs[i] == s[i].v
  {
    if s == [] then [] else [s[0].v] + Values(s[1..])
  }

  predicate AllFinite(s: seq<Num>)
  {
    forall i :: 0 <= i < |s| ==> s[i].Fin?
  }

  /** A sum of scalars is NaN exactly when one of its terms is, and otherwise
      it is the real sum of the terms. */
  lemma {:induction false} NumSumFinite(s: seq<Num>)
    ensures NumSum(s).Fin? <==> AllFinite(s)
    ensures AllFinite(s) ==> NumSum(s).v == RSum(Values(s))
  {
    if s != [] {
      NumSumFinite(s[1..]);
      assert AllFinite(s) <==> s[0].Fin? && AllFinite(s[1..]);
      if AllFinite(s) {
        assert Values(s)[1..] == Values(s[1..]);
      }
    }
  }

  lemma {:induction false} NumSumAppend(s: seq<Num>, x: Num)
    ensures NumSum(s + [x]) == Add(NumSum(s), x)
  {
    if s == [] {
      assert [x][1..] == [];
    } else {
      assert (s + [x])[1..] == s[1..] + [x];
      NumSumAppend(s[1..], x);
    }
  }
}
