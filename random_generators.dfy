/**
 * The bounded random walk of the simulator (simulador/app/utils/random_generators.py).
 * The draw `random.uniform(-paso, paso)` is an input `u`; the walk adds it to the value and
 * clamps the sum with `max(min(sum, maximo), minimo)`.
 */
module RandomGenerators {
  import opened Common

  /** `random_walk(value, minimo, maximo, paso)` once `random.uniform(-paso, paso)` has returned `u`. */
  function RandomWalk(value: real, minimo: real, maximo: real, u: real): (r: real)
    ensures minimo <= maximo ==> minimo <= r <= maximo
    ensures minimo > maximo ==> r == minimo
    ensures minimo <= value + u <= maximo ==> r == value + u
    ensures value + u < minimo ==> r == minimo
    ensures minimo <= maximo < value + u ==> r == maximo
  {
    Max(Min(value + u, maximo), minimo)
  }

  /** A draw of `random.uniform(-paso, paso)` for a non-negative step size. */
  predicate IsDraw(u: real, paso: real) {
    -paso <= u <= paso
  }

  /** From a value within the bounds, one step moves it by at most `paso`. */
  lemma WalkMovesAtMostStep(value: real, minimo: real, maximo: real, paso: real, u: real)
    requires minimo <= value <= maximo
    requires IsDraw(u, paso)
    ensures -paso <= RandomWalk(value, minimo, maximo, u) - value <= paso
  {
    var r := RandomWalk(value, minimo, maximo, u);
    if value + u < minimo {
      assert r == minimo && minimo - value <= 0.0;
    } else if value + u > maximo {
      assert r == maximo && maximo - value >= 0.0;
    }
  }

  /** Walking again from a clamped value with a zero draw leaves it where it is. */
  lemma WalkSettles(value: real, minimo: real, maximo: real, u: real)
    requires minimo <= maximo
    ensures var r := RandomWalk(value, minimo, maximo, u);
      RandomWalk(r, minimo, maximo, 0.0) == r
  {
  }
}
