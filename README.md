# StateAbstract dimensions, verified

A Dafny model of the dimensional bookkeeping of crocoddyl's `StateAbstract`,
the base type of every state manifold in the optimal-control stack. A state
is described by four `unsigned int` dimensions:

- `nx`, the dimension of the state (configuration and velocity stacked);
- `ndx`, the dimension of the tangent space;
- `nv = ndx / 2`, the velocity dimension (truncating division);
- `nq = nx - nv`, the configuration dimension (unsigned subtraction).

The constructor stores `nx` and `ndx` and derives `nv`, then `nq`, without
checking its arguments. The four accessors are `const` and return the stored
values.

Files:

- `uint32.dfy`, module `UInt32`: C++ `unsigned int` as the integers in
  [0, 2^32), with subtraction and addition reduced modulo 2^32 and truncating
  halving.
- `state_base.dfy`, module `StateBase`: the functions that derive `nv` and
  `nq`, the class `StateAbstract` and the lemmas about it.

The four dimensions are `const` fields of the class. The C++ object has no
mutator, so its dimensions never change after construction; `const` fields
make the same promise in Dafny. The accessors are functions, so calling one
changes nothing, and a second call returns the same value as the first.
`Valid()` is the object invariant that the constructor establishes: `nv` and
`nq` are the values derived from the stored `nx` and `ndx`.

The arguments are not validated. A real manifold supplies an even `ndx` with
`ndx / 2 <= nx`, and for such arguments `nq + nv == nx` and `2 * nv == ndx`
(`WellFormedSplit`). The source does not demand this of its callers, so the
model has no such precondition either. When `ndx / 2 > nx` the subtraction
wraps and `nq == nx - ndx / 2 + 2^32`; the constructor, its accessors and
`SplitExactIff` all state this case.

## Model

| member | source | states |
|---|---|---|
| UInt32.Sub | src/core/state-base.cpp:7 | unsigned subtraction gives the plain difference when nothing wraps, and the difference plus 2^32 when the subtrahend is larger |
| UInt32.Half | src/core/state-base.cpp:6 | unsigned division by 2 gives the largest `h` with `2 * h <= a`, so `a - 2 * h` is 0 or 1 |
| UInt32.AddUndoesSub | src/core/state-base.cpp:7 | adding the subtrahend back to an unsigned difference gives the minuend, whether or not the subtraction wrapped |
| UInt32.SubWrapsIff | src/core/state-base.cpp:7 | for a non-zero subtrahend, the subtraction wraps exactly when its result is larger than the minuend |
| StateBase.VelocityDim | src/core/state-base.cpp:6 | `nv` is `ndx / 2` rounded down: `2 * nv <= ndx`, `ndx - 2 * nv <= 1`, and `2 * nv == ndx` when `ndx` is even |
| StateBase.ConfigurationDim | src/core/state-base.cpp:7 | `nq + nv == nx` when `nv <= nx`, and `nq == nx - nv + 2^32` otherwise |
| StateBase.StateAbstract.constructor | src/core/state-base.cpp:5-8 | stores `nx` and `ndx` unchanged, derives `nv` with `2 * nv <= ndx <= 2 * nv + 1` and `nq` as the unsigned difference `nx - nv` in both its cases, and establishes `Valid()`; it accepts every pair of arguments |
| StateBase.StateAbstract.GetNx | src/core/state-base.cpp:12 | the state dimension is the unsigned sum of the configuration and velocity dimensions |
| StateBase.StateAbstract.GetNdx | src/core/state-base.cpp:14 | the tangent dimension is twice the velocity dimension plus its own parity |
| StateBase.StateAbstract.GetNq | src/core/state-base.cpp:16 | the configuration dimension plus `nv` is `nx` when `nv <= nx`, and is `nx - nv + 2^32` otherwise |
| StateBase.StateAbstract.GetNv | src/core/state-base.cpp:18 | the velocity dimension is half the tangent dimension, rounded down |
| StateBase.WellFormedSplit | src/core/state-base.cpp:5-7 | for an even `ndx` with `ndx / 2 <= nx`: `2 * get_nv() == get_ndx()` and `get_nq() + get_nv() == get_nx()` |
| StateBase.SplitExactIff | src/core/state-base.cpp:6-7 | `nq + nv == nx` holds in plain integers if and only if `ndx / 2 <= nx` |
| StateBase.SameArgumentsSameDims | src/core/state-base.cpp:5-7 | two objects built from the same `(nx, ndx)` have the same `nq` and `nv` |
| StateBase.DimsDetermineArguments | src/core/state-base.cpp:5-7 | two objects with the same `nq`, `nv` and parity of `ndx` were built from the same `(nx, ndx)` |
| StateBase.DerivedDimsReachable | src/core/state-base.cpp:5-8 | `nv` can be any value below 2^31 and no other, and for each such `nv` every `nq`, wrapped or not, comes from some arguments |
| StateBase.ConfigurationDimUnique | src/core/state-base.cpp:7 | `nq` is the one `unsigned int` that, added to `nv` modulo 2^32, gives `nx` |
| StateBase.ExampleStates | src/core/state-base.cpp:5-7 | `(nx, ndx) = (37, 36)` gives `nv = 18`, `nq = 19`; `(12, 12)` gives `nv = 6`, `nq = 6` |

## Left out

- The destructor (src/core/state-base.cpp:10): it is empty and the object owns nothing beyond the four dimensions.
- The accessors return `const unsigned int&`; the model returns the value, since the referenced field never changes.
- The manifold operations of concrete states (integrate, difference and their Jacobians): they are declared elsewhere and are floating-point numerics; they are not part of this model.
- benchmark/quadruped-benchmark.cpp: model loading, problem building and solving are calls into external libraries, the timing reads a clock, the statistics are floating-point and the report is console output; none of it is part of this model.
- `unsigned int` is taken to be 32 bits wide, as on the targets the code is built for.
- The tangent dimension is described as "always even" for manifolds with a velocity component, and the configuration dimension as never negative. The code checks neither, so the model accepts every pair of arguments and states the wrapped result instead of assuming it away.
