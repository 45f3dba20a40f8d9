/**
 * The submit handler of the new-item form (frontend/webapp/src/components/inventory/InventoryForm.tsx):
 * two guards with early returns, then one call to `createItem` with a normalised payload.
 * `parseFloat` and the outcome of `createItem` are parameters; the error toasts are recorded
 * as a list of messages.
 */
module InventoryForm {
  import opened Common
  import opened Text

  /** The form's fields, all held as the text the user typed. */
  datatype FormState = FormState(
    lotNumber: string,
    name: string,
    category: string,
    quantityAvailable: string,
    unit: string,
    manufacturer: string,
    origin: string,
    safetyStock: string,
    minOrderQty: string,
    packageSize: string)

  /** What `parseFloat` returns: `NaN`, one of the two infinities, or a finite number. */
  datatype JsNumber = NaN | PosInf | NegInf | Num(value: real)

  /** The object handed to `createItem`. */
  datatype Payload = Payload(
    lotNumber: string,
    name: string,
    category: string,
    quantityAvailable: JsNumber,
    unit: string,
    manufacturer: Option<string>,
    origin: Option<string>,
    safetyStock: Option<JsNumber>,
    minOrderQty: Option<JsNumber>,
    packageSize: Option<string>)

  const InvalidQuantity: string := "Cantidad inv\U{00E1}lida"

  /** `s || null`: the empty string becomes `null`. */
  function OrNull(s: string): Option<string> {
    if s == "" then None else Some(s)
  }

  /** `s ? parseFloat(s) : null`. */
  function ParsedOrNull(s: string, parse: string -> JsNumber): Option<JsNumber> {
    if s == "" then None else Some(parse(s))
  }

  /** The payload built from the form once the quantity `qty` has been accepted. */
  function BuildPayload(form: FormState, qty: JsNumber, parse: string -> JsNumber): Payload {
    Payload(
      form.lotNumber, form.name, form.category, qty, form.unit,
      OrNull(form.manufacturer), OrNull(form.origin),
      ParsedOrNull(form.safetyStock, parse), ParsedOrNull(form.minOrderQty, parse),
      OrNull(form.packageSize))
  }

  /** The form passes the first guard: neither lot number nor name is blank after trimming. */
  predicate HasIdentity(form: FormState) {
    !IsBlank(form.lotNumber) && !IsBlank(form.name)
  }

  /**
   * The parsed quantity passes the second guard `Number.isNaN(qty) || qty < 0`: it is not `NaN`
   * and not below zero, so `Infinity` passes.
   */
  predicate AcceptedQuantity(n: JsNumber) {
    n.PosInf? || (n.Num? && n.value >= 0.0)
  }

  /** `qty < 0` on a parsed number; `NaN < 0` is false. */
  predicate BelowZero(n: JsNumber) {
    n.NegInf? || (n.Num? && n.value < 0.0)
  }

  /**
   * `handleSubmit`: `created` lists the payloads passed to `createItem` and `errors` the error
   * toasts. `failure` is the message of the error `createItem` throws, or `None` when it succeeds;
   * the `catch` shows that message.
   */
  method HandleSubmit(form: FormState, parse: string -> JsNumber, failure: Option<string>)
      returns (created: seq<Payload>, errors: seq<string>)
    ensures |created| <= 1
    ensures !HasIdentity(form) ==> created == [] && errors == []
    ensures HasIdentity(form) && !AcceptedQuantity(parse(form.quantityAvailable)) ==>
              created == [] && errors == [InvalidQuantity]
    ensures created != [] <==> HasIdentity(form) && AcceptedQuantity(parse(form.quantityAvailable))
    ensures created != [] ==> created[0] == BuildPayload(form, parse(form.quantityAvailable), parse)
    ensures created != [] ==> errors == (if failure.Some? then [failure.value] else [])
  {
    created, errors := [], [];
    if IsBlank(form.lotNumber) || IsBlank(form.name) {
      return;
    }
    var qty := parse(form.quantityAvailable);
    if qty.NaN? || BelowZero(qty) {
      errors := errors + [InvalidQuantity];
      return;
    }
    var payload := BuildPayload(form, qty, parse);
    created := created + [payload];
    if failure.Some? {
      errors := errors + [failure.value];
    }
  }

  /**
   * The payload carries the accepted quantity, copies the text fields untrimmed, turns empty
   * optional text into `null`, and parses the optional numbers only when they are non-empty.
   */
  lemma PayloadNormalisation(form: FormState, qty: JsNumber, parse: string -> JsNumber)
    requires AcceptedQuantity(qty)
    ensures var p := BuildPayload(form, qty, parse);
      && p.quantityAvailable == qty && !p.quantityAvailable.NaN? && !BelowZero(p.quantityAvailable)
      && p.lotNumber == form.lotNumber && p.name == form.name
      && p.category == form.category && p.unit == form.unit
      && (p.manufacturer.None? <==> form.manufacturer == "")
      && (p.manufacturer.Some? ==> p.manufacturer.value == form.manufacturer)
      && (p.origin.None? <==> form.origin == "")
      && (p.packageSize.None? <==> form.packageSize == "")
      && (p.safetyStock.None? <==> form.safetyStock == "")
      && (p.safetyStock.Some? ==> p.safetyStock.value == parse(form.safetyStock))
      && (p.minOrderQty.None? <==> form.minOrderQty == "")
      && (p.minOrderQty.Some? ==> p.minOrderQty.value == parse(form.minOrderQty))
  {
  }
}
