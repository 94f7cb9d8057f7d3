/** The global-conditioned GRU cell (`GRUCell.forward`). The three affine maps
    (`nn.Linear`) and the activations (GELU, sigmoid, tanh) are uninterpreted
    functions; the cell's own bookkeeping is exact: the global latent is mixed
    into the hidden state before gating, the gate pre-activations are cut into
    three equal chunks, and the new state is a gated blend. */
module Cell {
  import opened Base

  /** The elementwise nonlinearities. */
  datatype Activations = Activations(gelu: real -> real, sigmoid: real -> real, tanh: real -> real)

  /** One cell: its sizes and its three affine maps `x2h`, `h2h`, `mix_global`. */
  datatype CellParams = CellParams(
    inputSize: nat, hiddenSize: nat, globalSize: nat,
    x2h: Vec -> Vec, h2h: Vec -> Vec, mixGlobal: Vec -> Vec)

  /** The output widths the three `nn.Linear` layers are built with. */
  ghost predicate Shaped(p: CellParams)
  {
    && (forall v: Vec :: |v| == p.inputSize ==> |p.x2h(v)| == 3 * p.hiddenSize)
    && (forall v: Vec :: |v| == p.hiddenSize ==> |p.h2h(v)| == 3 * p.hiddenSize)
    && (forall v: Vec :: |v| == p.globalSize + p.hiddenSize ==> |p.mixGlobal(v)| == p.hiddenSize)
  }

  function MapV(f: real -> real, v: Vec): (r: Vec)
    ensures |r| == |v| && forall i :: 0 <= i < |v| ==> r[i] == f(v[i])
  {
    seq(|v|, i requires 0 <= i < |v| => f(v[i]))
  }

  function AddV(a: Vec, b: Vec): (r: Vec)
    requires |a| == |b|
    ensures |r| == |a| && forall i :: 0 <= i < |a| ==> r[i] == a[i] + b[i]
  {
    seq(|a|, i requires 0 <= i < |a| => a[i] + b[i])
  }

  function MulV(a: Vec, b: Vec): (r: Vec)
    requires |a| == |b|
    ensures |r| == |a| && forall i :: 0 <= i < |a| ==> r[i] == a[i] * b[i]
  {
    seq(|a|, i requires 0 <= i < |a| => a[i] * b[i])
  }

  /** The intermediate vectors of one cell step. */
  datatype Gates = Gates(mixed: Vec, reset: Vec, update: Vec, candidate: Vec)

  /** `hx` is replaced by a zero vector when absent. */
  function StartState(p: CellParams, hx: Option<Vec>): (h: Vec)
    ensures hx.Some? ==> h == hx.value
    ensures hx.None? ==> h == Zeros(p.hiddenSize)
  {
    if hx.Some? then hx.value else Zeros(p.hiddenSize)
  }

  function ComputeGates(p: CellParams, act: Activations, input: Vec, global: Vec, hx: Vec): (g: Gates)
    requires Shaped(p)
    requires |input| == p.inputSize && |global| == p.globalSize && |hx| == p.hiddenSize
    ensures |g.mixed| == p.hiddenSize && |g.reset| == p.hiddenSize
    ensures |g.update| == p.hiddenSize && |g.candidate| == p.hiddenSize
    ensures g.mixed == MapV(act.gelu, p.mixGlobal(global + hx))
    ensures var h, xt, ht := p.hiddenSize, p.x2h(input), p.h2h(g.mixed);
      && g.reset == MapV(act.sigmoid, AddV(xt[..h], ht[..h]))
      && g.update == MapV(act.sigmoid, AddV(xt[h..2 * h], ht[h..2 * h]))
      && g.candidate == MapV(act.tanh, AddV(xt[2 * h..], MulV(g.reset, ht[2 * h..])))
  {
    var h := p.hiddenSize;
    var mixed := MapV(act.gelu, p.mixGlobal(global + hx));
    var xt := p.x2h(input);
    var ht := p.h2h(mixed);
    var reset := MapV(act.sigmoid, AddV(xt[..h], ht[..h]));
    var update := MapV(act.sigmoid, AddV(xt[h..2 * h], ht[h..2 * h]));
    var candidate := MapV(act.tanh, AddV(xt[2 * h..], MulV(reset, ht[2 * h..])));
    Gates(mixed, reset, update, candidate)
  }

  predicate Between(x: real, a: real, b: real)
  {
    (a <= x <= b) || (b <= x <= a)
  }

  lemma MulNonneg(x: real, y: real)
    requires x >= 0.0 && y >= 0.0
    ensures x * y >= 0.0
  {
  }

  /** A convex combination lies between its two ends. */
  lemma ConvexScalar(u: real, a: real, b: real)
    requires 0.0 <= u <= 1.0
    ensures Between(u * a + (1.0 - u) * b, a, b)
  {
    var lo, hi := if a <= b then a else b, if a <= b then b else a;
    var w := if a <= b then u else 1.0 - u;
    assert u * a + (1.0 - u) * b == lo + (1.0 - w) * (hi - lo);
    MulNonneg(1.0 - w, hi - lo);
    MulNonneg(w, hi - lo);
    assert (1.0 - w) * (hi - lo) + w * (hi - lo) == hi - lo;
  }

  /** The gated update `hy = u * h_mix + (1 - u) * n`. */
  function Blend(g: Gates): (hy: Vec)
    requires |g.mixed| == |g.update| && |g.candidate| == |g.update|
    ensures |hy| == |g.update|
    ensures forall i :: 0 <= i < |hy| && 0.0 <= g.update[i] <= 1.0 ==> Between(hy[i], g.mixed[i], g.candidate[i])
    ensures forall i :: 0 <= i < |hy| && g.update[i] == 1.0 ==> hy[i] == g.mixed[i]
    ensures forall i :: 0 <= i < |hy| && g.update[i] == 0.0 ==> hy[i] == g.candidate[i]
  {
    var hy := seq(|g.update|, i requires 0 <= i < |g.update| =>
      g.update[i] * g.mixed[i] + (1.0 - g.update[i]) * g.candidate[i]);
    forall i | 0 <= i < |hy| && 0.0 <= g.update[i] <= 1.0
      ensures Between(hy[i], g.mixed[i], g.candidate[i])
    {
      ConvexScalar(g.update[i], g.mixed[i], g.candidate[i]);
    }
    hy
  }

  /** `GRUCell.forward(input, global_hidden, hx)`: the new hidden state has the
      cell's hidden width and, componentwise, lies between the context-mixed
      state and the candidate whenever the update gate is in [0, 1]. */
  function Forward(p: CellParams, act: Activations, input: Vec, global: Vec, hx: Option<Vec>): (hy: Vec)
    requires Shaped(p)
    requires |input| == p.inputSize && |global| == p.globalSize
    requires hx.Some? ==> |hx.value| == p.hiddenSize
    ensures |hy| == p.hiddenSize
    ensures var g := ComputeGates(p, act, input, global, StartState(p, hx));
      && (forall i :: 0 <= i < p.hiddenSize && 0.0 <= g.update[i] <= 1.0 ==> Between(hy[i], g.mixed[i], g.candidate[i]))
      && (forall i :: 0 <= i < p.hiddenSize && g.update[i] == 1.0 ==> hy[i] == g.mixed[i])
  {
    Blend(ComputeGates(p, act, input, global, StartState(p, hx)))
  }

  /** With the standard ranges of sigmoid and tanh, every component of the
      new state lies between min(h_mix, -1) and max(h_mix, 1): the candidate
      is in (-1, 1) and the update gate strictly inside (0, 1). */
  lemma OutputRange(p: CellParams, act: Activations, input: Vec, global: Vec, hx: Option<Vec>, i: nat)
    requires Shaped(p)
    requires |input| == p.inputSize && |global| == p.globalSize
    requires hx.Some? ==> |hx.value| == p.hiddenSize
    requires forall z :: 0.0 < act.sigmoid(z) < 1.0
    requires forall z :: -1.0 < act.tanh(z) < 1.0
    requires i < p.hiddenSize
    ensures var m := ComputeGates(p, act, input, global, StartState(p, hx)).mixed[i];
      var y := Forward(p, act, input, global, hx)[i];
      (if m < -1.0 then m else -1.0) <= y <= (if m > 1.0 then m else 1.0)
  {
    var g := ComputeGates(p, act, input, global, StartState(p, hx));
    var h := p.hiddenSize;
    var xt := p.x2h(input);
    var ht := p.h2h(g.mixed);
    assert g.update == MapV(act.sigmoid, AddV(xt[h..2 * h], ht[h..2 * h]));
    assert g.candidate == MapV(act.tanh, AddV(xt[2 * h..], MulV(g.reset, ht[2 * h..])));
    assert 0.0 < g.update[i] < 1.0;
    assert -1.0 < g.candidate[i] < 1.0;
  }

  /** An absent previous state behaves as the all-zero state. */
  lemma MissingStateIsZero(p: CellParams, act: Activations, input: Vec, global: Vec)
    requires Shaped(p)
    requires |input| == p.inputSize && |global| == p.globalSize
    ensures Forward(p, act, input, global, None) == Forward(p, act, input, global, Some(Zeros(p.hiddenSize)))
  {
  }
}
