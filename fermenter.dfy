/**
 * The virtual fermenter of the simulator (simulador/app/models/fermenter.py): three process
 * variables updated in place by bounded random walks, and the MQTT messages that publish them.
 * The clock and the random draws are parameters; `curva_logistica` is a parameter `logistic`.
 */
module Simulator {
  import opened Common
  import opened RandomGenerators
  import FS = FermentationService

  /** The bounds each `step` keeps: `[18, 22]` °C, `[0.8, 1.2]` bar and `[0, 100]` % CO2. */
  predicate InBounds(temperature: real, pressure: real, co2: real) {
    && 18.0 <= temperature <= 22.0
    && 0.8 <= pressure <= 1.2
    && 0.0 <= co2 <= 100.0
  }

  /** A payload `f"{value:.{decimals}f}"`: the value and the number of decimals it is printed with. */
  datatype Payload = Fixed(value: real, decimals: nat)

  /** One message: a topic and its payload. */
  datatype Message = Message(topic: string, payload: Payload)

  /** The variables in the order the messages list them. */
  const Published: seq<FS.Variable> := [FS.Temperature, FS.Pressure, FS.Co2]

  /** `f"brewpi/fermentation/{id}"`. */
  function BaseTopic(id: string): string {
    FS.Prefix + id
  }

  /**
   * `mqtt_messages` for a fermenter with the given id and readings: three messages in the order
   * temperature, pressure, co2, each on `brewpi/fermentation/<id>/<variable>`, printed with
   * 2, 3 and 1 decimals.
   */
  function Messages(id: string, temperature: real, pressure: real, co2: real): (r: seq<Message>)
    ensures |r| == 3
    ensures forall i :: 0 <= i < 3 ==> r[i].topic == FS.Prefix + id + "/" + FS.VarName(Published[i])
    ensures r[0].payload == Fixed(temperature, 2)
    ensures r[1].payload == Fixed(pressure, 3)
    ensures r[2].payload == Fixed(co2, 1)
  {
    var base := BaseTopic(id);
    [ Message(base + "/" + "temperature", Fixed(temperature, 2)),
      Message(base + "/" + "pressure", Fixed(pressure, 3)),
      Message(base + "/" + "co2", Fixed(co2, 1)) ]
  }

  /**
   * For a non-empty id without `/`, the backend's topic grammar accepts every published topic
   * and reads back the same id and the variable the message carries.
   */
  lemma MessagesRoundTrip(id: string, temperature: real, pressure: real, co2: real)
    requires id != "" && '/' !in id
    ensures var r := Messages(id, temperature, pressure, co2);
      forall i :: 0 <= i < 3 ==> FS.MatchTopic(r[i].topic) == Some((id, Published[i]))
  {
    var r := Messages(id, temperature, pressure, co2);
    forall i | 0 <= i < 3
      ensures FS.MatchTopic(r[i].topic) == Some((id, Published[i]))
    {
      FS.MatchTopicExact(r[i].topic, id, Published[i]);
    }
  }

  /** An id holding `/` produces topics the backend never accepts with that id. */
  lemma SlashedIdNotRecovered(id: string, temperature: real, pressure: real, co2: real, i: int)
    requires '/' in id && 0 <= i < 3
    ensures FS.MatchTopic(Messages(id, temperature, pressure, co2)[i].topic) != Some((id, Published[i]))
  {
    var r := Messages(id, temperature, pressure, co2);
    FS.MatchTopicExact(r[i].topic, id, Published[i]);
  }

  class Fermenter {
    const id: string
    /** `_start_ts`: the clock reading at creation, in seconds. */
    const startTs: real
    var temperature: real
    var pressure: real
    var co2: real

    predicate Valid()
      reads this
    {
      InBounds(temperature, pressure, co2)
    }

    /** `__init__`: the initial state 20.0 °C, 1.0 bar, 0.0 %, already within the bounds. */
    constructor(fermenterId: string, now: real)
      ensures id == fermenterId && startTs == now
      ensures temperature == 20.0 && pressure == 1.0 && co2 == 0.0
      ensures Valid()
    {
      id := fermenterId;
      startTs := now;
      temperature := 20.0;
      pressure := 1.0;
      co2 := 0.0;
    }

    /**
     * `step`: temperature and pressure walk from their previous values, CO2 walks from the
     * logistic curve at the elapsed time. `uT`, `uP` and `uC` are the three draws. Whatever the
     * previous state and the draws, the new state is within the bounds.
     */
    method Step(interval: real, now: real, logistic: real -> real, uT: real, uP: real, uC: real)
      modifies this
      ensures temperature == RandomWalk(old(temperature), 18.0, 22.0, uT)
      ensures pressure == RandomWalk(old(pressure), 0.8, 1.2, uP)
      ensures co2 == RandomWalk(logistic(now - startTs), 0.0, 100.0, uC)
      ensures Valid()
    {
      var elapsed := now - startTs;
      temperature := RandomWalk(temperature, 18.0, 22.0, uT);
      pressure := RandomWalk(pressure, 0.8, 1.2, uP);
      var baseCo2 := logistic(elapsed);
      co2 := RandomWalk(baseCo2, 0.0, 100.0, uC);
    }

    /** `mqtt_messages`. */
    function MqttMessages(): seq<Message>
      reads this
    {
      Messages(id, temperature, pressure, co2)
    }
  }

  /**
   * From a state within the bounds, a step with draws of the simulator's step sizes (0.05 °C and
   * 0.01 bar) moves temperature and pressure by at most that much.
   */
  lemma StepIsGradual(temperature: real, pressure: real, uT: real, uP: real)
    requires 18.0 <= temperature <= 22.0 && 0.8 <= pressure <= 1.2
    requires IsDraw(uT, 0.05) && IsDraw(uP, 0.01)
    ensures -0.05 <= RandomWalk(temperature, 18.0, 22.0, uT) - temperature <= 0.05
    ensures -0.01 <= RandomWalk(pressure, 0.8, 1.2, uP) - pressure <= 0.01
  {
    WalkMovesAtMostStep(temperature, 18.0, 22.0, 0.05, uT);
    WalkMovesAtMostStep(pressure, 0.8, 1.2, 0.01, uP);
  }
}
