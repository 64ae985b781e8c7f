/** The belief of a Kalman filter: a state of fifteen variables and its covariance. */
module Estimates {
  import opened LinearAlgebra
  import opened Kalman

  const STATE_DIM: nat := 15

  datatype Estimate = Estimate(x: Vec, p: Mat)

  ghost predicate Sane(e: Estimate) {
    |e.x| == STATE_DIM && Covariance(e.p, STATE_DIM)
  }

  function Position(x: Vec): Vec
    requires |x| == STATE_DIM
  {
    x[..3]
  }

  function Orientation(x: Vec): Vec
    requires |x| == STATE_DIM
  {
    x[6..9]
  }
}
