/**
 * The dictionary shapes the control-logic engine passes around: the runtime
 * PLC configuration the builder writes and the PLC agents and the SCADA
 * server read, the physical snapshot, and the request and reply messages.
 * Every key the components read is a field; `Option` marks a key that
 * `dict.get` may find missing, `Field` one whose "present but None" case
 * matters to a reader.
 */
module Records {
  import opened Wrappers

  /** The `logic` sub-dictionary of a PLC entry. */
  datatype Logic = Logic(
    mode: Option<string>,
    nodeId: Option<string>,
    threshold: Option<real>,
    tankId: Option<string>)

  const NoLogic := Logic(None, None, None, None)

  /** One entry of the `plcs` list; `elementType` is the `type` key. */
  datatype PlcConfig = PlcConfig(
    id: Option<string>,
    elementId: Option<string>,
    ip: Option<string>,
    role: Option<string>,
    elementType: Option<string>,
    logic: Option<Logic>)

  /** `cfg.get("logic", {})`. */
  function LogicOf(cfg: PlcConfig): Logic {
    cfg.logic.GetOr(NoLogic)
  }

  /** The `scada` settings; the components only copy them. */
  type Settings = map<string, string>

  /** The built configuration; `scada` is None where the user's `scada` key holds None. */
  datatype RuntimeConfig = RuntimeConfig(scada: Option<Settings>, plcs: seq<PlcConfig>)

  /**
   * A physical snapshot. A missing `tanks`, `pumps`, `valves` or `pressures`
   * key is read as `{}`, so it is the empty map here.
   */
  datatype Snapshot = Snapshot(
    time: Option<real>,
    tanks: map<string, real>,
    pumps: map<string, string>,
    valves: map<string, real>,
    pressures: map<string, real>)

  /** Python truthiness of an optional string: present and non-empty. */
  predicate Truthy(s: Option<string>) {
    s.Some? && s.value != ""
  }

  /** `d.get(k)` for a key that may itself be None. */
  function Lookup<V>(d: map<string, V>, k: Option<string>): Option<V> {
    if k.Some? && k.value in d then Some(d[k.value]) else None
  }

  /** The `observations` dictionary of a request. */
  datatype Observations = Observations(
    tankLevel: Option<real>,
    level: Option<real>,
    currentStatus: Field<string>,
    pressures: Option<map<string, real>>,
    currentSetting: Field<real>)

  const NoObservations := Observations(None, None, Absent, None, Absent)

  datatype Request = Request(
    plcId: Option<string>,
    role: Option<string>,
    time: Field<real>,
    observations: Observations)

  /** The `responses` dictionary of a reply. */
  datatype Responses = Responses(
    overrideAction: Option<string>,
    pumpCommand: Option<string>,
    valveSetting: Option<string>)

  const NoResponses := Responses(None, None, None)

  datatype Reply = Reply(
    plcId: Field<string>,
    responses: Option<Responses>,
    error: Option<string>)

  /** The empty dictionary `{}` read as a reply. */
  const EmptyReply := Reply(Absent, None, None)
}
