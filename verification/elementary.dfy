/** The transcendental functions the loss code calls: `exp`, `log` and a
    log-sum-exp reduction over one axis. They are left uninterpreted — every
    definition takes them as a parameter — and a property that depends on one of
    their laws names that law as a hypothesis. */
module Elementary {

  datatype Ops = Ops(exp: real -> real, log: real -> real, logSumExp: seq<real> -> real)

  /** `np.pi` as a double. */
  const Pi: real := 3.141592653589793

  /** The module constant `LN2PI = np.log(2 * np.pi)`. */
  function Ln2Pi(ops: Ops): real
  {
    ops.log(2.0 * Pi)
  }

  predicate ExpZero(ops: Ops)
  {
    ops.exp(0.0) == 1.0
  }

  ghost predicate ExpPositive(ops: Ops)
  {
    forall x :: ops.exp(x) > 0.0
  }

  /** log-sum-exp of a single term is that term: log(exp(x)) == x. */
  ghost predicate LogSumExpSingleton(ops: Ops)
  {
    forall x :: ops.logSumExp([x]) == x
  }
}
