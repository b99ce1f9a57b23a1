/**
 * The PLC agent of `ics_network/plc_node.py`: it turns a physical snapshot
 * into an observation request for the SCADA server, keeps the last reply,
 * and turns that reply into an actuator effect on its own element.
 *
 * The agent is a class over the two fields the source overwrites
 * (`last_reply`, `cached_request`); the configuration never changes. What a
 * request and an effect ought to be is given by the functions `Observe`,
 * `RequestFor` and `ActuatorEffect`, and the methods are proved to compute
 * exactly those.
 */
module PlcNode {
  import opened Wrappers
  import opened Records

  predicate IsActuator(cfg: PlcConfig) {
    cfg.role == Some("actuator")
  }

  /**
   * The `observations` dictionary `build_request` produces for `cfg`:
   * a tank sensor reports its own tank's level when the snapshot has it;
   * a pump actuator always reports its status (possibly None) and, when the
   * logic names a tank present in the snapshot, that tank's level; a valve
   * actuator always reports the pressures and its current setting (possibly
   * None); every other PLC reports nothing. No PLC reports a `level` key.
   */
  function Observe(cfg: PlcConfig, snapshot: Snapshot): (o: Observations)
    ensures o.level.None?
    ensures cfg.role == Some("sensor") && cfg.elementType == Some("tank") ==>
      (o.tankLevel.Some? <==> cfg.elementId.Some? && cfg.elementId.value in snapshot.tanks) &&
      (o.tankLevel.Some? ==> o.tankLevel.value == snapshot.tanks[cfg.elementId.value]) &&
      o.currentStatus == Absent && o.pressures.None? && o.currentSetting == Absent
    ensures cfg.role == Some("sensor") && cfg.elementType != Some("tank") ==> o == NoObservations
    ensures IsActuator(cfg) && cfg.elementType == Some("pump") ==>
      o.currentStatus != Absent && o.currentStatus.Get() == Lookup(snapshot.pumps, cfg.elementId) &&
      (o.tankLevel.Some? <==> Truthy(LogicOf(cfg).tankId) && LogicOf(cfg).tankId.value in snapshot.tanks) &&
      (o.tankLevel.Some? ==> o.tankLevel.value == snapshot.tanks[LogicOf(cfg).tankId.value]) &&
      o.pressures.None? && o.currentSetting == Absent
    ensures IsActuator(cfg) && cfg.elementType == Some("valve") ==>
      o.pressures == Some(snapshot.pressures) &&
      o.currentSetting != Absent && o.currentSetting.Get() == Lookup(snapshot.valves, cfg.elementId) &&
      o.tankLevel.None? && o.currentStatus == Absent
    ensures cfg.role != Some("sensor") && !(IsActuator(cfg) && cfg.elementType in {Some("pump"), Some("valve")}) ==>
      o == NoObservations
  {
    if cfg.role == Some("sensor") then
      if cfg.elementType == Some("tank") then NoObservations.(tankLevel := Lookup(snapshot.tanks, cfg.elementId))
      else NoObservations
    else if IsActuator(cfg) && cfg.elementType == Some("pump") then
      var tankId := LogicOf(cfg).tankId;
      NoObservations.(
        tankLevel := if Truthy(tankId) then Lookup(snapshot.tanks, tankId) else None,
        currentStatus := Present(Lookup(snapshot.pumps, cfg.elementId)))
    else if IsActuator(cfg) && cfg.elementType == Some("valve") then
      NoObservations.(
        pressures := Some(snapshot.pressures),
        currentSetting := Present(Lookup(snapshot.valves, cfg.elementId)))
    else NoObservations
  }

  /** The request `build_request` returns: identity and role from the configuration, time from the snapshot. */
  function RequestFor(cfg: PlcConfig, snapshot: Snapshot): (r: Request)
    ensures r.plcId == cfg.id && r.role == cfg.role
    ensures r.time != Absent && r.time.Get() == snapshot.time
    ensures r.observations == Observe(cfg, snapshot)
  {
    Request(cfg.id, cfg.role, Present(snapshot.time), Observe(cfg, snapshot))
  }

  /** A value of the actuator effect: a pump command string, or a valve setting. */
  datatype Effect = PumpCommand(command: string) | ValveSetting(setting: real)

  /** `float(valve_setting)` raising `ValueError`. */
  datatype EffectError = NotANumber(text: string)

  /**
   * `get_actuator_effect` on a reply. `toFloat` is Python's `float` on a
   * string, None where it raises. The effect is empty for a non-actuator;
   * for an actuator it maps at most the PLC's own element, to the pump
   * command of a pump or the (converted) valve setting of a valve, and is
   * empty when the reply carries no such value. `override_action` is never
   * consulted.
   */
  function ActuatorEffect(cfg: PlcConfig, reply: Reply, toFloat: string -> Option<real>)
    : (r: Result<map<Option<string>, Effect>, EffectError>)
    ensures !IsActuator(cfg) ==> r == Ok(map[])
    ensures r.Ok? ==> r.value.Keys <= {cfg.elementId}
    ensures r.Err? <==>
      IsActuator(cfg) && cfg.elementType == Some("valve") &&
      var setting := reply.responses.GetOr(NoResponses).valveSetting;
      setting.Some? && toFloat(setting.value).None?
    ensures IsActuator(cfg) && cfg.elementType == Some("pump") ==>
      var cmd := reply.responses.GetOr(NoResponses).pumpCommand;
      r == Ok(if cmd.Some? then map[cfg.elementId := PumpCommand(cmd.value)] else map[])
    ensures IsActuator(cfg) && cfg.elementType == Some("valve") && r.Ok? ==>
      var setting := reply.responses.GetOr(NoResponses).valveSetting;
      r.value == if setting.Some? then map[cfg.elementId := ValveSetting(toFloat(setting.value).value)] else map[]
    ensures IsActuator(cfg) && cfg.elementType !in {Some("pump"), Some("valve")} ==> r == Ok(map[])
  {
    if !IsActuator(cfg) then Ok(map[])
    else
      var responses := reply.responses.GetOr(NoResponses);
      if cfg.elementType == Some("pump") && responses.pumpCommand.Some? then
        Ok(map[cfg.elementId := PumpCommand(responses.pumpCommand.value)])
      else if cfg.elementType == Some("valve") && responses.valveSetting.Some? then
        match toFloat(responses.valveSetting.value)
        case None => Err(NotANumber(responses.valveSetting.value))
        case Some(v) => Ok(map[cfg.elementId := ValveSetting(v)])
      else Ok(map[])
  }

  /** The effect does not depend on `override_action`: a reply that differs only there has the same effect. */
  lemma OverrideActionIgnored(cfg: PlcConfig, responses: Responses, action: Option<string>,
                              plcId: Field<string>, error: Option<string>, toFloat: string -> Option<real>)
    ensures ActuatorEffect(cfg, Reply(plcId, Some(responses), error), toFloat)
         == ActuatorEffect(cfg, Reply(plcId, Some(responses.(overrideAction := action)), error), toFloat)
  {
  }

  /** `reply or {}`: a missing (None) reply is stored as the empty dictionary. */
  function Stored(reply: Option<Reply>): (r: Reply)
    ensures reply.None? ==> r == EmptyReply
    ensures reply.Some? ==> r == reply.value
  {
    reply.GetOr(EmptyReply)
  }

  class PlcLogic {
    const cfg: PlcConfig
    var lastReply: Reply
    /** The last request built, None while it is still the initial `{}`. */
    var cachedRequest: Option<Request>

    constructor(cfg: PlcConfig)
      ensures this.cfg == cfg
      ensures lastReply == EmptyReply && cachedRequest.None?
    {
      this.cfg := cfg;
      lastReply := EmptyReply;
      cachedRequest := None;
    }

    /** `build_request`: fills the observations key by key, caches and returns the request. */
    method BuildRequest(snapshot: Snapshot) returns (request: Request)
      modifies this
      ensures request == RequestFor(cfg, snapshot)
      ensures cachedRequest == Some(request)
      ensures lastReply == old(lastReply)
    {
      var plcId := cfg.id;
      var role := cfg.role;
      var elementId := cfg.elementId;
      var observations := NoObservations;
      if role == Some("sensor") && cfg.elementType == Some("tank") {
        var level := Lookup(snapshot.tanks, elementId);
        if level.Some? {
          observations := observations.(tankLevel := level);
        }
      }
      if role == Some("actuator") {
        if cfg.elementType == Some("pump") {
          var tankId := LogicOf(cfg).tankId;
          if Truthy(tankId) {
            var level := Lookup(snapshot.tanks, tankId);
            if level.Some? {
              observations := observations.(tankLevel := level);
            }
          }
          observations := observations.(currentStatus := Present(Lookup(snapshot.pumps, elementId)));
        }
        if cfg.elementType == Some("valve") {
          observations := observations.(pressures := Some(snapshot.pressures));
          observations := observations.(currentSetting := Present(Lookup(snapshot.valves, elementId)));
        }
      }
      request := Request(plcId, role, Present(snapshot.time), observations);
      cachedRequest := Some(request);
    }

    /** `update_from_scada_reply`: the reply replaces the last one, whatever it holds. */
    method UpdateFromScadaReply(reply: Option<Reply>)
      modifies this
      ensures lastReply == Stored(reply)
      ensures cachedRequest == old(cachedRequest)
    {
      lastReply := if reply.Some? then reply.value else EmptyReply;
    }

    /** `get_actuator_effect`: reads the last reply and changes nothing. */
    method GetActuatorEffect(toFloat: string -> Option<real>) returns (r: Result<map<Option<string>, Effect>, EffectError>)
      ensures r == ActuatorEffect(cfg, lastReply, toFloat)
    {
      if cfg.role != Some("actuator") {
        return Ok(map[]);
      }
      var elementId := cfg.elementId;
      var responses := lastReply.responses.GetOr(NoResponses);
      if cfg.elementType == Some("pump") {
        var cmd := responses.pumpCommand;
        if cmd.Some? {
          return Ok(map[elementId := PumpCommand(cmd.value)]);
        }
      }
      if cfg.elementType == Some("valve") {
        var setting := responses.valveSetting;
        if setting.Some? {
          var value := toFloat(setting.value);
          if value.None? {
            return Err(NotANumber(setting.value));
          }
          return Ok(map[elementId := ValveSetting(value.value)]);
        }
      }
      return Ok(map[]);
    }
  }
}
