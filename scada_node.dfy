/**
 * The SCADA server of `ics_network/scada_node.py`: per PLC request it
 * applies the demonstration override window for `PLC_PUMP_1`, looks up the
 * PLC's configuration, ingests a sensor level or evaluates an actuator's
 * threshold mode, keeps the latest command per element, and chooses the
 * reply.
 *
 * `Handle` is the whole request as a function of the server state; the
 * class `ScadaServer` holds that state in four fields and its
 * `HandlePlcRequest` is proved to change them exactly as `Handle` says.
 * The properties are lemmas about `Handle`.
 */
module ScadaNode {
  import opened Wrappers
  import opened Records
  import RuntimePlcBuilder

  /** The PLC the demonstration override forces off. */
  const OverriddenPlc := "PLC_PUMP_1"
  const OverrideValue := "OFF"

  /** The four maps the server keeps between requests. */
  datatype ScadaState = ScadaState(
    latestSensors: map<string, real>,
    pumpCommands: map<string, string>,
    valveCommands: map<string, string>,
    overrides: map<string, string>)

  const InitialState := ScadaState(map[], map[], map[], map[])

  /** An exception the handler lets escape. */
  datatype Fault =
    | TypeError            // `10000 < None` on a request whose time is None
    | KeyError(key: string) // `cfg["element_id"]` on a configuration without one

  /** The state after a request and what the handler returned or raised. */
  datatype Outcome = Outcome(state: ScadaState, reply: Result<Reply, Fault>)

  datatype ActuatorKind = Pump | Valve

  // ---------------------------------------------------------------------
  // The override window
  // ---------------------------------------------------------------------

  /**
   * `10000 < current_time < 15000` with `current_time = request.get("time", 0)`:
   * a missing time counts as 0, a time present as None raises.
   */
  function InWindow(time: Field<real>): (r: Result<bool, Fault>)
    ensures r.Err? <==> time == Null
    ensures r.Err? ==> r.error == TypeError
    ensures r == Ok(true) <==> time.Val? && 10000.0 < time.value && time.value < 15000.0
  {
    match time
    case Absent => Ok(10000.0 < 0.0 < 15000.0)
    case Null => Err(TypeError)
    case Val(t) => Ok(10000.0 < t < 15000.0)
  }

  /** Set or pop the override of `PLC_PUMP_1`; every other entry is kept. */
  function ApplyOverride(overrides: map<string, string>, active: bool): (o: map<string, string>)
    ensures OverriddenPlc in o <==> active
    ensures active ==> o[OverriddenPlc] == OverrideValue
    ensures forall p :: p != OverriddenPlc ==> (p in o <==> p in overrides)
    ensures forall p :: p != OverriddenPlc && p in o ==> o[p] == overrides[p]
  {
    if active then overrides[OverriddenPlc := OverrideValue] else overrides - {OverriddenPlc}
  }

  // ---------------------------------------------------------------------
  // Configuration lookup and sensor ingestion
  // ---------------------------------------------------------------------

  /** `_find_plc_cfg`: the first configuration whose id equals `plcId`, None when there is none. */
  function FindCfg(plcs: seq<PlcConfig>, plcId: Option<string>): (r: Option<PlcConfig>)
    ensures r.None? <==> forall k :: 0 <= k < |plcs| ==> plcs[k].id != plcId
    ensures r.Some? ==> exists k :: (0 <= k < |plcs| && plcs[k] == r.value && plcs[k].id == plcId &&
      forall l :: 0 <= l < k ==> plcs[l].id != plcId)
  {
    if plcs == [] then None
    else if plcs[0].id == plcId then Some(plcs[0])
    else
      var r := FindCfg(plcs[1..], plcId);
      assert forall k :: 1 <= k < |plcs| ==> plcs[k] == plcs[1..][k - 1];
      if r.Some? then
        var k :| 0 <= k < |plcs| - 1 && plcs[1..][k] == r.value && plcs[1..][k].id == plcId &&
          forall l :: 0 <= l < k ==> plcs[1..][l].id != plcId;
        assert plcs[k + 1] == r.value && forall l :: 0 <= l < k + 1 ==> plcs[l].id != plcId;
        r
      else r
  }

  /**
   * `_ingest_sensor`: a tank configuration with a `tank_level` observation
   * records that level under its element id; any other request changes
   * nothing.
   */
  function Ingest(s: ScadaState, cfg: PlcConfig, observations: Observations): (r: Result<ScadaState, Fault>)
    ensures r.Err? ==> r.error == KeyError("element_id")
    ensures r.Ok? ==> r.value.pumpCommands == s.pumpCommands && r.value.valveCommands == s.valveCommands &&
                      r.value.overrides == s.overrides
  {
    if cfg.elementType == Some("tank") && observations.tankLevel.Some? then
      if cfg.elementId.None? then Err(KeyError("element_id"))
      else Ok(s.(latestSensors := s.latestSensors[cfg.elementId.value := observations.tankLevel.value]))
    else Ok(s)
  }

  // ---------------------------------------------------------------------
  // Actuator logic
  // ---------------------------------------------------------------------

  predicate IsMode(mode: Option<string>) {
    mode in {Some("open_if_below"), Some("close_if_below"), Some("open_if_above"), Some("close_if_above")}
  }

  /** The level an actuator is judged by: the observed `level`, else the last level of its logic node. */
  function LevelFor(latestSensors: map<string, real>, cfg: PlcConfig, observations: Observations): (r: Option<real>)
    ensures observations.level.Some? ==> r == observations.level
    ensures observations.level.None? && !Truthy(LogicOf(cfg).nodeId) ==> r.None?
    ensures observations.level.None? && Truthy(LogicOf(cfg).nodeId) ==>
      (r.Some? <==> LogicOf(cfg).nodeId.value in latestSensors) &&
      (r.Some? ==> r.value == latestSensors[LogicOf(cfg).nodeId.value])
  {
    var nodeId := LogicOf(cfg).nodeId;
    if observations.level.None? && Truthy(nodeId) then Lookup(latestSensors, nodeId)
    else observations.level
  }

  /** The command of a threshold mode at `level`. */
  function ModeCommand(mode: Option<string>, level: real, threshold: real): (r: Option<string>)
    ensures r.Some? <==> IsMode(mode)
    ensures r.Some? ==> r.value == "OPEN" || r.value == "CLOSED"
  {
    if mode == Some("open_if_below") then Some(if level < threshold then "OPEN" else "CLOSED")
    else if mode == Some("close_if_below") then Some(if level < threshold then "CLOSED" else "OPEN")
    else if mode == Some("open_if_above") then Some(if level > threshold then "OPEN" else "CLOSED")
    else if mode == Some("close_if_above") then Some(if level > threshold then "CLOSED" else "OPEN")
    else None
  }

  /**
   * `_dispatch_actuator_logic`: None when there is no level to judge by or
   * the mode is unknown; otherwise the mode's command against the threshold
   * (0 when the logic has none).
   */
  function Dispatch(latestSensors: map<string, real>, cfg: PlcConfig, observations: Observations): (r: Option<string>)
    ensures r.Some? <==> LevelFor(latestSensors, cfg, observations).Some? && IsMode(LogicOf(cfg).mode)
    ensures r.Some? ==>
      r == ModeCommand(LogicOf(cfg).mode, LevelFor(latestSensors, cfg, observations).value, LogicOf(cfg).threshold.GetOr(0.0))
  {
    var logic := LogicOf(cfg);
    var level := LevelFor(latestSensors, cfg, observations);
    if level.None? then None
    else ModeCommand(logic.mode, level.value, logic.threshold.GetOr(0.0))
  }

  function Opposite(action: string): string {
    if action == "OPEN" then "CLOSED" else "OPEN"
  }

  /**
   * Each mode the builder derives from a rule `action IF node comparator
   * threshold` performs that rule: the rule's action when the level is on
   * the comparator's side of the threshold, the opposite action otherwise.
   */
  lemma ModeRealisesRule(comparator: string, action: string, level: real, threshold: real)
    requires RuntimePlcBuilder.LogicMode(comparator, action).Some?
    ensures ModeCommand(RuntimePlcBuilder.LogicMode(comparator, action), level, threshold) ==
      Some(if (comparator == "BELOW" && level < threshold) || (comparator == "ABOVE" && level > threshold)
           then action else Opposite(action))
  {
  }

  /** Record a non-None command under the configuration's element id. */
  function Record(s: ScadaState, kind: ActuatorKind, cfg: PlcConfig, cmd: Option<string>): (r: Result<ScadaState, Fault>)
    ensures cmd.None? ==> r == Ok(s)
    ensures cmd.Some? && cfg.elementId.None? ==> r == Err(KeyError("element_id"))
    ensures r.Ok? ==> r.value.latestSensors == s.latestSensors && r.value.overrides == s.overrides
  {
    if cmd.None? then Ok(s)
    else if cfg.elementId.None? then Err(KeyError("element_id"))
    else match kind
      case Pump => Ok(s.(pumpCommands := s.pumpCommands[cfg.elementId.value := cmd.value]))
      case Valve => Ok(s.(valveCommands := s.valveCommands[cfg.elementId.value := cmd.value]))
  }

  /** The responses to an actuator: the override if the PLC has one, else the command if any. */
  function ActuatorResponses(overrides: map<string, string>, plcId: Option<string>, kind: ActuatorKind,
                             cmd: Option<string>): Responses
  {
    if plcId.Some? && plcId.value in overrides then NoResponses.(overrideAction := Some(overrides[plcId.value]))
    else if cmd.None? then NoResponses
    else match kind
      case Pump => NoResponses.(pumpCommand := cmd)
      case Valve => NoResponses.(valveSetting := cmd)
  }

  function ReplyTo(plcId: Option<string>, responses: Responses, error: Option<string>): Reply {
    Reply(Present(plcId), Some(responses), error)
  }

  /** An actuator request of a pump or valve configuration, after the override step. */
  function HandleActuator(s: ScadaState, kind: ActuatorKind, cfg: PlcConfig, request: Request): Outcome {
    var cmd := Dispatch(s.latestSensors, cfg, request.observations);
    match Record(s, kind, cfg, cmd)
    case Err(f) => Outcome(s, Err(f))
    case Ok(s2) => Outcome(s2, Ok(ReplyTo(request.plcId, ActuatorResponses(s2.overrides, request.plcId, kind, cmd), None)))
  }

  /** `handle_plc_request` as a function of the server's configuration and state. */
  function Handle(plcs: seq<PlcConfig>, s: ScadaState, request: Request): Outcome {
    match InWindow(request.time)
    case Err(f) => Outcome(s, Err(f))
    case Ok(active) =>
      var s1 := s.(overrides := ApplyOverride(s.overrides, active));
      var cfg := FindCfg(plcs, request.plcId);
      if cfg.None? then Outcome(s1, Ok(ReplyTo(request.plcId, NoResponses, Some("unknown_plc"))))
      else if request.role == Some("sensor") then
        match Ingest(s1, cfg.value, request.observations)
        case Err(f) => Outcome(s1, Err(f))
        case Ok(s2) => Outcome(s2, Ok(ReplyTo(request.plcId, NoResponses, None)))
      else if request.role == Some("actuator") && cfg.value.elementType == Some("pump") then
        HandleActuator(s1, Pump, cfg.value, request)
      else if request.role == Some("actuator") && cfg.value.elementType == Some("valve") then
        HandleActuator(s1, Valve, cfg.value, request)
      else Outcome(s1, Ok(ReplyTo(request.plcId, NoResponses, Some("unknown_role"))))
  }

  // ---------------------------------------------------------------------
  // Properties of a request
  // ---------------------------------------------------------------------

  /**
   * After any request whose time can be compared, `PLC_PUMP_1` is overridden
   * exactly when `10000 < time < 15000`, whether or not the PLC is known,
   * and no other override changes.
   */
  lemma OverrideWindow(plcs: seq<PlcConfig>, s: ScadaState, request: Request)
    requires request.time != Null
    ensures var o := Handle(plcs, s, request).state.overrides;
      (OverriddenPlc in o <==> request.time.Val? && 10000.0 < request.time.value < 15000.0) &&
      (OverriddenPlc in o ==> o[OverriddenPlc] == OverrideValue) &&
      forall p :: p != OverriddenPlc ==> (p in o <==> p in s.overrides) && (p in o ==> o[p] == s.overrides[p])
  {
    var active := InWindow(request.time).value;
    var s1 := s.(overrides := ApplyOverride(s.overrides, active));
    var cfg := FindCfg(plcs, request.plcId);
    if cfg.Some? && request.role == Some("actuator") {
      var kind := if cfg.value.elementType == Some("pump") then Pump else Valve;
      var cmd := Dispatch(s1.latestSensors, cfg.value, request.observations);
      assert Record(s1, kind, cfg.value, cmd).Ok? ==> Record(s1, kind, cfg.value, cmd).value.overrides == s1.overrides;
    }
  }

  /** A time present as None raises before anything changes. */
  lemma NullTimeRaises(plcs: seq<PlcConfig>, s: ScadaState, request: Request)
    requires request.time == Null
    ensures Handle(plcs, s, request) == Outcome(s, Err(TypeError))
  {
  }

  /**
   * An unknown PLC gets the `unknown_plc` error reply and changes nothing
   * but the override window.
   */
  lemma UnknownPlc(plcs: seq<PlcConfig>, s: ScadaState, request: Request)
    requires request.time != Null
    requires forall k :: 0 <= k < |plcs| ==> plcs[k].id != request.plcId
    ensures var out := Handle(plcs, s, request);
      out.reply == Ok(ReplyTo(request.plcId, NoResponses, Some("unknown_plc"))) &&
      out.state.latestSensors == s.latestSensors &&
      out.state.pumpCommands == s.pumpCommands && out.state.valveCommands == s.valveCommands
  {
  }

  /**
   * A sensor request of a known PLC gets empty responses and leaves the
   * command maps alone; it records the level exactly for a tank
   * configuration with a `tank_level` observation.
   */
  lemma SensorRequest(plcs: seq<PlcConfig>, s: ScadaState, request: Request)
    requires request.time != Null && request.role == Some("sensor")
    requires FindCfg(plcs, request.plcId).Some?
    requires FindCfg(plcs, request.plcId).value.elementId.Some?
    ensures var out := Handle(plcs, s, request);
      var cfg := FindCfg(plcs, request.plcId).value;
      out.reply == Ok(ReplyTo(request.plcId, NoResponses, None)) &&
      out.state.pumpCommands == s.pumpCommands && out.state.valveCommands == s.valveCommands &&
      out.state.latestSensors ==
        if cfg.elementType == Some("tank") && request.observations.tankLevel.Some?
        then s.latestSensors[cfg.elementId.value := request.observations.tankLevel.value]
        else s.latestSensors
  {
  }

  /**
   * For a pump or valve actuator the command map entry of its element is
   * replaced exactly when the logic yields a command, override or not;
   * otherwise the previous command stays. The sensor levels never change.
   */
  lemma CommandRetention(plcs: seq<PlcConfig>, s: ScadaState, request: Request)
    requires request.time != Null && request.role == Some("actuator")
    requires FindCfg(plcs, request.plcId).Some?
    requires FindCfg(plcs, request.plcId).value.elementId.Some?
    requires FindCfg(plcs, request.plcId).value.elementType in {Some("pump"), Some("valve")}
    ensures var out := Handle(plcs, s, request);
      var cfg := FindCfg(plcs, request.plcId).value;
      var cmd := Dispatch(s.latestSensors, cfg, request.observations);
      var key := cfg.elementId.value;
      out.reply.Ok? && out.state.latestSensors == s.latestSensors &&
      (cmd.None? ==> out.state.pumpCommands == s.pumpCommands && out.state.valveCommands == s.valveCommands) &&
      (cmd.Some? && cfg.elementType == Some("pump") ==>
        out.state.pumpCommands == s.pumpCommands[key := cmd.value] && out.state.valveCommands == s.valveCommands) &&
      (cmd.Some? && cfg.elementType == Some("valve") ==>
        out.state.valveCommands == s.valveCommands[key := cmd.value] && out.state.pumpCommands == s.pumpCommands)
  {
  }

  /**
   * The reply to a pump or valve actuator: its override when it has one,
   * else its command under `pump_command` or `valve_setting`, else nothing.
   */
  lemma ReplyChoice(plcs: seq<PlcConfig>, s: ScadaState, request: Request)
    requires request.time != Null && request.role == Some("actuator")
    requires FindCfg(plcs, request.plcId).Some?
    requires FindCfg(plcs, request.plcId).value.elementId.Some?
    requires FindCfg(plcs, request.plcId).value.elementType in {Some("pump"), Some("valve")}
    ensures var out := Handle(plcs, s, request);
      var cfg := FindCfg(plcs, request.plcId).value;
      var cmd := Dispatch(s.latestSensors, cfg, request.observations);
      var o := out.state.overrides;
      var id := request.plcId;
      out.reply.Ok? && out.reply.value.plcId == Present(id) && out.reply.value.error.None? &&
      out.reply.value.responses.Some? &&
      var responses := out.reply.value.responses.value;
      (id.Some? && id.value in o ==> responses == NoResponses.(overrideAction := Some(o[id.value]))) &&
      (!(id.Some? && id.value in o) && cmd.Some? && cfg.elementType == Some("pump") ==>
        responses == NoResponses.(pumpCommand := cmd)) &&
      (!(id.Some? && id.value in o) && cmd.Some? && cfg.elementType == Some("valve") ==>
        responses == NoResponses.(valveSetting := cmd)) &&
      (!(id.Some? && id.value in o) && cmd.None? ==> responses == NoResponses)
  {
  }

  /**
   * A known PLC whose role is neither sensor nor a pump or valve actuator
   * gets the `unknown_role` error and changes nothing but the override
   * window.
   */
  lemma UnknownRole(plcs: seq<PlcConfig>, s: ScadaState, request: Request)
    requires request.time != Null
    requires FindCfg(plcs, request.plcId).Some?
    requires request.role != Some("sensor")
    requires !(request.role == Some("actuator") &&
               FindCfg(plcs, request.plcId).value.elementType in {Some("pump"), Some("valve")})
    ensures var out := Handle(plcs, s, request);
      out.reply == Ok(ReplyTo(request.plcId, NoResponses, Some("unknown_role"))) &&
      out.state.latestSensors == s.latestSensors &&
      out.state.pumpCommands == s.pumpCommands && out.state.valveCommands == s.valveCommands
  {
  }

  // ---------------------------------------------------------------------
  // The server object
  // ---------------------------------------------------------------------

  class ScadaServer {
    /** `plc_config.get("plcs", [])`. */
    const plcs: seq<PlcConfig>
    var latestSensors: map<string, real>
    var pumpCommands: map<string, string>
    var valveCommands: map<string, string>
    var overrides: map<string, string>

    function State(): ScadaState
      reads this
    {
      ScadaState(latestSensors, pumpCommands, valveCommands, overrides)
    }

    constructor(plcs: seq<PlcConfig>)
      ensures this.plcs == plcs && State() == InitialState
    {
      this.plcs := plcs;
      latestSensors := map[];
      pumpCommands := map[];
      valveCommands := map[];
      overrides := map[];
    }

    /** `handle_plc_request`: updates the four maps in place and returns the reply, or the exception raised. */
    method HandlePlcRequest(request: Request) returns (r: Result<Reply, Fault>)
      modifies this
      ensures Outcome(State(), r) == Handle(plcs, old(State()), request)
    {
      var plcId := request.plcId;
      var role := request.role;
      var observations := request.observations;
      var window := InWindow(request.time);
      if window.Err? {
        return Err(window.error);
      }
      if window.value {
        overrides := overrides[OverriddenPlc := OverrideValue];
      } else {
        overrides := overrides - {OverriddenPlc};
      }
      var cfg := FindPlcCfg(plcId);
      if cfg.None? {
        return Ok(ReplyTo(plcId, NoResponses, Some("unknown_plc")));
      }
      if role == Some("sensor") {
        var fault := IngestSensor(cfg.value, observations);
        if fault.Some? {
          return Err(fault.value);
        }
        return Ok(ReplyTo(plcId, NoResponses, None));
      }
      if role == Some("actuator") {
        if cfg.value.elementType == Some("pump") {
          var cmd := Dispatch(latestSensors, cfg.value, observations);
          if cmd.Some? {
            if cfg.value.elementId.None? {
              return Err(KeyError("element_id"));
            }
            pumpCommands := pumpCommands[cfg.value.elementId.value := cmd.value];
          }
          var responses := NoResponses;
          if plcId.Some? && plcId.value in overrides {
            responses := responses.(overrideAction := Some(overrides[plcId.value]));
          } else if cmd.Some? {
            responses := responses.(pumpCommand := cmd);
          }
          return Ok(ReplyTo(plcId, responses, None));
        }
        if cfg.value.elementType == Some("valve") {
          var cmd := Dispatch(latestSensors, cfg.value, observations);
          if cmd.Some? {
            if cfg.value.elementId.None? {
              return Err(KeyError("element_id"));
            }
            valveCommands := valveCommands[cfg.value.elementId.value := cmd.value];
          }
          var responses := NoResponses;
          if plcId.Some? && plcId.value in overrides {
            responses := responses.(overrideAction := Some(overrides[plcId.value]));
          } else if cmd.Some? {
            responses := responses.(valveSetting := cmd);
          }
          return Ok(ReplyTo(plcId, responses, None));
        }
      }
      return Ok(ReplyTo(plcId, NoResponses, Some("unknown_role")));
    }

    /** `get_actuator_commands`: the current command maps, left in place. */
    method GetActuatorCommands() returns (pumps: map<string, string>, valves: map<string, string>)
      ensures pumps == pumpCommands && valves == valveCommands
    {
      pumps := pumpCommands;
      valves := valveCommands;
    }

    /** `_find_plc_cfg`: scans the configurations in order and stops at the first match. */
    method FindPlcCfg(plcId: Option<string>) returns (r: Option<PlcConfig>)
      ensures r == FindCfg(plcs, plcId)
    {
      for i := 0 to |plcs|
        invariant FindCfg(plcs, plcId) == FindCfg(plcs[i..], plcId)
      {
        assert plcs[i..][1..] == plcs[i + 1..];
        if plcs[i].id == plcId {
          return Some(plcs[i]);
        }
      }
      return None;
    }

    /** `_ingest_sensor`: records a tank level in place; the fault it raises, if any. */
    method IngestSensor(cfg: PlcConfig, observations: Observations) returns (fault: Option<Fault>)
      modifies this
      ensures Ingest(old(State()), cfg, observations).Err? ==>
        fault == Some(Ingest(old(State()), cfg, observations).error) && State() == old(State())
      ensures Ingest(old(State()), cfg, observations).Ok? ==>
        fault.None? && State() == Ingest(old(State()), cfg, observations).value
    {
      fault := None;
      if cfg.elementType == Some("tank") {
        var level := observations.tankLevel;
        if level.Some? {
          if cfg.elementId.None? {
            return Some(KeyError("element_id"));
          }
          latestSensors := latestSensors[cfg.elementId.value := level.value];
        }
      }
    }
  }
}
