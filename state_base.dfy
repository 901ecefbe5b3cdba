/** The dimensional bookkeeping of crocoddyl's `StateAbstract`, the base of
    every state manifold: the state dimension `nx`, the tangent dimension
    `ndx`, and the two derived dimensions `nv` (velocity) and `nq`
    (configuration). All four are `unsigned int` in the source. */
module StateBase {
  import opened UInt32

  /** The velocity dimension derived from the tangent dimension: half of it,
      truncated. */
  function VelocityDim(ndx: uint32): (nv: uint32)
    ensures 2 * nv <= ndx && ndx - 2 * nv <= 1
    ensures ndx % 2 == 0 ==> 2 * nv == ndx
  {
    Half(ndx)
  }

  /** The configuration dimension derived from the state dimension and the
      velocity dimension: their unsigned difference. */
  function ConfigurationDim(nx: uint32, nv: uint32): (nq: uint32)
    ensures nv <= nx ==> nq + nv == nx
    ensures nx < nv ==> nq == nx - nv + MODULUS
  {
    Sub(nx, nv)
  }

  /** The dimensions a real manifold with a velocity component supplies:
      an even tangent dimension whose half does not exceed the state
      dimension. The constructor does not check this. */
  predicate WellFormed(nx: uint32, ndx: uint32) {
    ndx % 2 == 0 && ndx / 2 <= nx
  }

  class StateAbstract {
    /** Dimension of the state (configuration and velocity stacked). */
    const nx: uint32
    /** Dimension of the tangent space. */
    const ndx: uint32
    /** Dimension of the configuration. */
    const nq: uint32
    /** Dimension of the velocity. */
    const nv: uint32

    /** The derived dimensions are the ones the constructor computes from
        the stored `nx` and `ndx`. */
    ghost predicate Valid() {
      nv == VelocityDim(ndx) && nq == ConfigurationDim(nx, nv)
    }

    /** Stores `nx` and `ndx`, then derives `nv` and, from the stored `nx`
        and `nv`, `nq`. No argument is rejected. */
    constructor (nx: uint32, ndx: uint32)
      ensures Valid()
      ensures this.nx == nx && this.ndx == ndx
      ensures 2 * nv <= ndx <= 2 * nv + 1
      ensures nv <= nx ==> nq == nx - nv
      ensures nx < nv ==> nq == nx - nv + MODULUS
    {
      this.nx := nx;
      this.ndx := ndx;
      var velocity := VelocityDim(ndx);
      nv := velocity;
      nq := ConfigurationDim(nx, velocity);
    }

    /** The state dimension. */
    function GetNx(): (r: uint32)
      requires Valid()
      ensures Add(GetNq(), GetNv()) == r
    {
      nx
    }

    /** The tangent dimension. */
    function GetNdx(): (r: uint32)
      requires Valid()
      ensures r == 2 * GetNv() + r % 2
    {
      ndx
    }

    /** The configuration dimension. */
    function GetNq(): (r: uint32)
      requires Valid()
      ensures nv <= nx ==> r + nv == nx
      ensures nx < nv ==> r == nx - nv + MODULUS
    {
      nq
    }

    /** The velocity dimension. */
    function GetNv(): (r: uint32)
      requires Valid()
      ensures 2 * r <= ndx <= 2 * r + 1
    {
      nv
    }
  }

  /** With well-formed dimensions nothing wraps: the tangent dimension is
      twice the velocity dimension and the configuration and velocity
      dimensions add up to the state dimension. */
  lemma {:induction false} WellFormedSplit(s: StateAbstract)
    requires s.Valid() && WellFormed(s.nx, s.ndx)
    ensures 2 * s.GetNv() == s.GetNdx()
    ensures s.GetNq() + s.GetNv() == s.GetNx()
  {
  }

  /** The configuration and velocity dimensions add up to the state
      dimension without wrapping exactly when half the tangent dimension
      does not exceed the state dimension. */
  lemma {:induction false} SplitExactIff(s: StateAbstract)
    requires s.Valid()
    ensures s.nq + s.nv == s.nx <==> s.ndx / 2 <= s.nx
  {
  }

  /** Construction is deterministic: objects built from the same arguments
      agree on all four dimensions. */
  lemma {:induction false} SameArgumentsSameDims(s: StateAbstract, t: StateAbstract)
    requires s.Valid() && t.Valid()
    requires s.nx == t.nx && s.ndx == t.ndx
    ensures s.nq == t.nq && s.nv == t.nv
  {
  }

  /** The stored dimensions determine the arguments back: `nx` from `nq`
      and `nv`, `ndx` from `nv` and its parity. */
  lemma {:induction false} DimsDetermineArguments(s: StateAbstract, t: StateAbstract)
    requires s.Valid() && t.Valid()
    requires s.nq == t.nq && s.nv == t.nv && s.ndx % 2 == t.ndx % 2
    ensures s.nx == t.nx && s.ndx == t.ndx
  {
  }

  /** The derived pair is onto: `nv` takes exactly the values below 2^31,
      and for each of them every configuration dimension, wrapped or not,
      comes from some constructor arguments. */
  lemma {:induction false} DerivedDimsReachable(nq: uint32, nv: uint32)
    ensures nv < MODULUS / 2 <==>
      exists nx: uint32, ndx: uint32 :: VelocityDim(ndx) == nv && ConfigurationDim(nx, nv) == nq
  {
    if nv < MODULUS / 2 {
      var nx, ndx := Add(nq, nv), 2 * nv;
      assert VelocityDim(ndx) == nv && ConfigurationDim(nx, nv) == nq;
    }
  }

  /** The configuration dimension is the one value that, added to the
      velocity dimension in unsigned arithmetic, gives the state dimension. */
  lemma {:induction false} ConfigurationDimUnique(nx: uint32, nv: uint32)
    ensures forall r: uint32 :: Add(r, nv) == nx <==> r == ConfigurationDim(nx, nv)
  {
  }

  /** The two example states: a floating-base robot with `nx = 37`,
      `ndx = 36`, and a fixed-base one with `nx = ndx = 12`. */
  method ExampleStates() returns (floating: StateAbstract, fixed: StateAbstract)
    ensures floating.Valid() && fixed.Valid()
    ensures floating.GetNv() == 18 && floating.GetNq() == 19
    ensures fixed.GetNv() == 6 && fixed.GetNq() == 6
  {
    floating := new StateAbstract(37, 36);
    fixed := new StateAbstract(12, 12);
  }
}
