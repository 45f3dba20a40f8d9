/**
 * The temperature validator shared by the services (utils/validators.py): a value in °C is
 * accepted unchanged when it lies in the safe range, otherwise a `ValueError` is raised.
 */
module Validators {
  import opened Common

  const OutOfRange: string := "Temperatura fuera de rango seguro (-40 a 150 \U{00B0}C)"

  /** `Temperatura.rango_valido`: `Ok(v)` for a value returned, `Err(message)` for a `ValueError`. */
  function RangoValido(v: real): (r: Result<real, string>)
    ensures r.Ok? <==> -40.0 <= v <= 150.0
    ensures r.Ok? ==> r.value == v
    ensures r.Err? ==> r.error == OutOfRange
  {
    if !(-40.0 <= v && v <= 150.0) then Err(OutOfRange) else Ok(v)
  }

  /** Both ends of the range are accepted, and the values just outside them are not. */
  lemma BoundsInclusive(eps: real)
    requires eps > 0.0
    ensures RangoValido(-40.0) == Ok(-40.0) && RangoValido(150.0) == Ok(150.0)
    ensures RangoValido(-40.0 - eps).Err? && RangoValido(150.0 + eps).Err?
  {
  }

  /** Validating a value that was accepted accepts it again, unchanged. */
  lemma RevalidationIsStable(v: real)
    requires RangoValido(v).Ok?
    ensures RangoValido(RangoValido(v).value) == RangoValido(v)
  {
  }
}
