/** The column layout of the model input and of the packed prediction: one
    block of `embDim` columns per categorical feature, then one column per
    numeric feature, then (optionally) the time-delta column. */
module Layout {
  import opened Base

  /** The configuration fields the width arithmetic reads. */
  datatype Config = Config(embDim: nat, numEmbeddings: nat, numNumeric: nat, useDeltas: bool)

  /** Width of the categorical region (`categorical_len`). */
  function CategoricalLen(c: Config): nat
  {
    c.numEmbeddings * c.embDim
  }

  /** Width of the model input and of every prediction row (`input_dim`). */
  function InputDim(c: Config): (w: nat)
    ensures w == CategoricalLen(c) + c.numNumeric + (if c.useDeltas then 1 else 0)
  {
    c.embDim * c.numEmbeddings + c.numNumeric + (if c.useDeltas then 1 else 0)
  }

  /** Width of a prediction row once the delta column, if any, is stripped. */
  function StrippedWidth(c: Config): (w: nat)
    ensures w == CategoricalLen(c) + c.numNumeric
  {
    InputDim(c) - (if c.useDeltas then 1 else 0)
  }

  /** What a column of a prediction row carries. */
  datatype Column = Categorical(feature: nat, offset: nat) | Numeric(index: nat) | Delta

  predicate ValidColumn(c: Config, col: Column)
  {
    match col
    case Categorical(i, j) => i < c.numEmbeddings && j < c.embDim
    case Numeric(k) => k < c.numNumeric
    case Delta => c.useDeltas
  }

  /** Where each kind of column sits. */
  function Position(c: Config, col: Column): nat
  {
    match col
    case Categorical(i, j) => i * c.embDim + j
    case Numeric(k) => CategoricalLen(c) + k
    case Delta => CategoricalLen(c) + c.numNumeric
  }

  /** Which column sits at position `p`, if `p` is inside the row. */
  function Owner(c: Config, p: nat): Option<Column>
  {
    if p < CategoricalLen(c) then
      assert c.embDim > 0;
      Some(Categorical(p / c.embDim, p % c.embDim))
    else if p < CategoricalLen(c) + c.numNumeric then Some(Numeric(p - CategoricalLen(c)))
    else if p == CategoricalLen(c) + c.numNumeric && c.useDeltas then Some(Delta)
    else None
  }

  lemma {:induction false} MulStep(a: nat, b: nat, d: nat)
    requires a < b
    ensures a * d + d <= b * d
    decreases b - a
  {
    assert b * d == (b - 1) * d + d;
    if b - 1 > a {
      MulStep(a, b - 1, d);
    }
  }

  lemma BlockArithmetic(d: nat, e: nat, i: nat, j: nat)
    requires i < e && j < d
    ensures i * d + j < e * d
    ensures (i * d + j) / d == i && (i * d + j) % d == j
  {
    MulStep(i, e, d);
    var p := i * d + j;
    var q, r := p / d, p % d;
    assert q * d + r == p && 0 <= r < d;
    if q > i {
      MulStep(i, q, d);
      assert false;
    } else if q < i {
      MulStep(q, i, d);
      assert false;
    }
  }

  lemma BlockDecompose(d: nat, e: nat, p: nat)
    requires p < e * d
    ensures d > 0 && p / d < e && p / d * d + p % d == p
  {
    if d == 0 {
      assert false;
    }
    var q := p / d;
    if q >= e {
      if q > e {
        MulStep(e, q, d);
      }
      assert false;
    }
  }

  /** Every valid column has a position inside the row, and that position
      belongs to it alone. */
  lemma OwnerOfPosition(c: Config, col: Column)
    requires ValidColumn(c, col)
    ensures Position(c, col) < InputDim(c)
    ensures Owner(c, Position(c, col)) == Some(col)
  {
    if col.Categorical? {
      BlockArithmetic(c.embDim, c.numEmbeddings, col.feature, col.offset);
    }
  }

  /** The positions inside the row are exactly those with an owner, and each
      owner sits where `Position` puts it: the blocks, the numeric columns and
      the delta column partition [0, InputDim). */
  lemma PositionOfOwner(c: Config, p: nat)
    ensures Owner(c, p).Some? <==> p < InputDim(c)
    ensures Owner(c, p).Some? ==> ValidColumn(c, Owner(c, p).value) && Position(c, Owner(c, p).value) == p
  {
    if p < CategoricalLen(c) {
      BlockDecompose(c.embDim, c.numEmbeddings, p);
    }
  }

  /** Categorical block `i` is the column range [i*embDim, (i+1)*embDim),
      inside the categorical region, and column `j` of it is owned by offset
      `j` of feature `i`. */
  lemma BlockRange(c: Config, i: nat)
    requires i < c.numEmbeddings
    ensures (i + 1) * c.embDim <= CategoricalLen(c)
    ensures forall j :: 0 <= j < c.embDim ==> Owner(c, i * c.embDim + j) == Some(Categorical(i, j))
  {
    MulStep(i, c.numEmbeddings, c.embDim);
    forall j | 0 <= j < c.embDim
      ensures Owner(c, i * c.embDim + j) == Some(Categorical(i, j))
    {
      OwnerOfPosition(c, Categorical(i, j));
    }
  }

  /** `pred[..., -countdown]`: the column a numeric key reads. */
  function NumericColumn(width: nat, countdown: int): Option<nat>
  {
    PyIndex(width, -countdown)
  }

  /** The countdown starts at the number of numeric features and is the
      number of numeric keys still to come; numeric key `k` thus reads
      column `width - (N - k)`, which is the position of numeric column `k`. */
  lemma CountdownColumn(c: Config, k: nat)
    requires k < c.numNumeric
    ensures NumericColumn(StrippedWidth(c), c.numNumeric - k) == Some(Position(c, Numeric(k)))
  {
  }

  /** `pred[..., -1]` is the delta column when deltas are used. */
  lemma DeltaIsLast(c: Config)
    requires c.useDeltas
    ensures PyIndex(InputDim(c), -1) == Some(Position(c, Delta))
  {
  }

  /** The physionet data configuration (3 categorical, 38 numeric features)
      under the rosbank model configuration (`features_emb_dim` 8, deltas on). */
  lemma PhysionetLayout()
    ensures var c := Config(8, 3, 38, true);
      && InputDim(c) == 63 && CategoricalLen(c) == 24
      && NumericColumn(StrippedWidth(c), 38) == Some(24)
      && NumericColumn(StrippedWidth(c), 1) == Some(61)
      && Owner(c, 61) == Some(Numeric(37)) && Owner(c, 62) == Some(Delta)
      && Owner(c, 23) == Some(Categorical(2, 7)) && Owner(c, 63) == None
  {
  }
}
