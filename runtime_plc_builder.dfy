/**
 * The runtime PLC configuration builder of `config/runtime_plc_builder.py`.
 *
 * It merges the minimal user PLC roster (id, element id, ip) with what the
 * parsed `[CONTROLS]` rules say: one actuator entry per rule whose
 * (comparator, action) pair has a logic mode, then one sensor entry per
 * distinct conditioning node. The WNTR element lookups are the parameters
 * `linkClass` and `nodeClass`, which give the class name of an element or
 * `None` where `get_link` / `get_node` raise `KeyError`.
 */
module RuntimePlcBuilder {
  import opened Wrappers
  import opened Text
  import opened Records
  import opened ControlsParser

  /** One entry of the user roster; the builder reads only these three keys. */
  datatype UserPlc = UserPlc(id: Field<string>, elementId: Field<string>, ip: Field<string>)

  /** The user configuration: its `plcs` and `scada` keys, each missing, None or set. */
  datatype UserConfig = UserConfig(plcs: Field<seq<UserPlc>>, scada: Field<Settings>)

  datatype BuildError =
    | RosterNotIterable              // `TypeError` from iterating a `plcs` that is None
    | MissingKey(key: string)        // `KeyError` on a roster entry
    | UnknownLink(linkId: string)    // `KeyError` from `get_link`
    | UnknownNode(nodeId: string)    // `KeyError` from `get_node`

  const DefaultIp := "10.0.0.250"

  // ---------------------------------------------------------------------
  // LOGIC_MAP and its inverse
  // ---------------------------------------------------------------------

  /** `LOGIC_MAP.get((comparator, action))`. */
  function LogicMode(comparator: string, action: string): (m: Option<string>)
    ensures m.Some? <==> (comparator == "BELOW" || comparator == "ABOVE") && (action == "OPEN" || action == "CLOSED")
  {
    if comparator == "BELOW" && action == "OPEN" then Some("open_if_below")
    else if comparator == "BELOW" && action == "CLOSED" then Some("close_if_below")
    else if comparator == "ABOVE" && action == "OPEN" then Some("open_if_above")
    else if comparator == "ABOVE" && action == "CLOSED" then Some("close_if_above")
    else None
  }

  /** The (comparator, action) pair a mode string stands for. */
  function ModeRule(mode: string): Option<(string, string)> {
    if mode == "open_if_below" then Some(("BELOW", "OPEN"))
    else if mode == "close_if_below" then Some(("BELOW", "CLOSED"))
    else if mode == "open_if_above" then Some(("ABOVE", "OPEN"))
    else if mode == "close_if_above" then Some(("ABOVE", "CLOSED"))
    else None
  }

  /** `LOGIC_MAP` is one-to-one: the mode gives back the pair it came from, and only that pair. */
  lemma LogicModeRoundTrip(comparator: string, action: string, mode: string)
    ensures LogicMode(comparator, action) == Some(mode) <==> ModeRule(mode) == Some((comparator, action))
  {
  }

  /** Every rule the parser can return has a logic mode. */
  lemma ParsedRuleIsMapped(ctl: ControlRule)
    requires IsCanonical(ctl)
    ensures LogicMode(ctl.comparator, ctl.action).Some?
  {
  }

  // ---------------------------------------------------------------------
  // Element types from class names
  // ---------------------------------------------------------------------

  /** `_infer_element_type` on the link's class name. */
  function InferElementType(cls: string): (t: string)
    ensures t == "pump" <==> Contains(LowerAscii(cls), "pump")
    ensures t == "valve" <==> !Contains(LowerAscii(cls), "pump") && Contains(LowerAscii(cls), "valve")
    ensures t == "pump" || t == "valve" || t == "link"
  {
    var k := LowerAscii(cls);
    if Contains(k, "pump") then "pump"
    else if Contains(k, "valve") then "valve"
    else "link"
  }

  /** `_node_type` on the node's class name. */
  function NodeTypeOf(cls: string): (t: string)
    ensures t == "tank" <==> Contains(LowerAscii(cls), "tank")
    ensures t == "reservoir" <==> !Contains(LowerAscii(cls), "tank") && Contains(LowerAscii(cls), "reservoir")
    ensures t == "tank" || t == "reservoir" || t == "junction"
  {
    var k := LowerAscii(cls);
    if Contains(k, "tank") then "tank"
    else if Contains(k, "reservoir") then "reservoir"
    else "junction"
  }

  // ---------------------------------------------------------------------
  // The roster index
  // ---------------------------------------------------------------------

  /** The dictionary key of a roster entry: `plc["element_id"]`, which may hold None. */
  function ElementKey(u: UserPlc): Option<string> {
    u.elementId.Get()
  }

  /**
   * `{plc["element_id"]: plc for plc in plcs}`: a `KeyError` when an entry
   * has no `element_id`; otherwise the keys are the element ids and, among
   * entries sharing one, the last one is kept.
   */
  function IndexByElement(plcs: seq<UserPlc>): (r: Result<map<Option<string>, UserPlc>, BuildError>)
    ensures r.Ok? <==> forall k :: 0 <= k < |plcs| ==> plcs[k].elementId != Absent
    ensures r.Err? ==> r.error == MissingKey("element_id")
    ensures r.Ok? ==> r.value.Keys == set k | 0 <= k < |plcs| :: ElementKey(plcs[k])
  {
    if plcs == [] then Ok(map[])
    else
      var front := plcs[..|plcs| - 1];
      var last := plcs[|plcs| - 1];
      assert forall k :: 0 <= k < |front| ==> front[k] == plcs[k];
      var index :- IndexByElement(front);
      if last.elementId == Absent then Err(MissingKey("element_id"))
      else
        Ok(index[ElementKey(last) := last])
  }

  /**
   * The roster entry an actuator is taken from, when several share its
   * element id: the last of them.
   */
  lemma {:induction false} LastRosterEntryWins(plcs: seq<UserPlc>, k: nat)
    requires IndexByElement(plcs).Ok? && k < |plcs|
    requires forall l :: k < l < |plcs| ==> ElementKey(plcs[l]) != ElementKey(plcs[k])
    ensures ElementKey(plcs[k]) in IndexByElement(plcs).value
    ensures IndexByElement(plcs).value[ElementKey(plcs[k])] == plcs[k]
    decreases |plcs|
  {
    var front := plcs[..|plcs| - 1];
    if k < |front| {
      assert forall j :: 0 <= j < |front| ==> front[j] == plcs[j];
      LastRosterEntryWins(front, k);
      assert ElementKey(plcs[|plcs| - 1]) != ElementKey(plcs[k]);
    }
  }

  // ---------------------------------------------------------------------
  // Entries
  // ---------------------------------------------------------------------

  /**
   * The actuator entry for a mapped rule: identity from the roster entry
   * whose element id is the rule's link, or the synthesised `PLC_<link>` at
   * the default ip; the element type from the link's class. Errors come in
   * the order the dictionary literal evaluates its values.
   */
  function ActuatorEntry(ctl: ControlRule, byElem: map<Option<string>, UserPlc>, linkClass: string -> Option<string>)
    : (r: Result<PlcConfig, BuildError>)
    ensures r.Err? ==> r.error.MissingKey? || r.error == UnknownLink(ctl.linkId)
  {
    var minimal :=
      if Some(ctl.linkId) in byElem then byElem[Some(ctl.linkId)]
      else UserPlc(Val("PLC_" + ctl.linkId), Val(ctl.linkId), Val(DefaultIp));
    if minimal.id == Absent then Err(MissingKey("id"))
    else if minimal.elementId == Absent then Err(MissingKey("element_id"))
    else
      var ip := if minimal.ip == Absent then Some(DefaultIp) else minimal.ip.Get();
      match linkClass(ctl.linkId)
      case None => Err(UnknownLink(ctl.linkId))
      case Some(cls) =>
        Ok(PlcConfig(
          minimal.id.Get(), minimal.elementId.Get(), ip, Some("actuator"), Some(InferElementType(cls)),
          Some(Logic(LogicMode(ctl.comparator, ctl.action), Some(ctl.nodeId), Some(ctl.threshold), None))))
  }

  /**
   * The fields of an actuator entry: role, logic and element type always;
   * identity and ip from the roster entry when there is one (`KeyError` on
   * a missing `id` or `element_id`), synthesised otherwise.
   */
  lemma ActuatorEntryFields(ctl: ControlRule, byElem: map<Option<string>, UserPlc>, linkClass: string -> Option<string>)
    ensures var r := ActuatorEntry(ctl, byElem, linkClass);
      (r.Ok? ==> r.value.role == Some("actuator")) &&
      (r.Ok? ==> r.value.logic == Some(Logic(LogicMode(ctl.comparator, ctl.action), Some(ctl.nodeId), Some(ctl.threshold), None))) &&
      (r.Ok? ==> linkClass(ctl.linkId).Some? && r.value.elementType == Some(InferElementType(linkClass(ctl.linkId).value)))
    ensures var r := ActuatorEntry(ctl, byElem, linkClass);
      Some(ctl.linkId) !in byElem ==>
        (r.Ok? <==> linkClass(ctl.linkId).Some?) &&
        (r.Ok? ==> r.value.id == Some("PLC_" + ctl.linkId) && r.value.elementId == Some(ctl.linkId) && r.value.ip == Some(DefaultIp))
    ensures var r := ActuatorEntry(ctl, byElem, linkClass);
      Some(ctl.linkId) in byElem ==>
        var u := byElem[Some(ctl.linkId)];
        (u.id == Absent ==> r == Err(MissingKey("id"))) &&
        (u.id != Absent && u.elementId == Absent ==> r == Err(MissingKey("element_id"))) &&
        (u.id != Absent && u.elementId != Absent && linkClass(ctl.linkId).None? ==> r == Err(UnknownLink(ctl.linkId))) &&
        (r.Ok? <==> u.id != Absent && u.elementId != Absent && linkClass(ctl.linkId).Some?) &&
        (r.Ok? ==> r.value.id == u.id.Get() && r.value.elementId == u.elementId.Get() &&
                   r.value.ip == (if u.ip == Absent then Some(DefaultIp) else u.ip.Get()))
  {
  }

  predicate IsMapped(ctl: ControlRule) {
    LogicMode(ctl.comparator, ctl.action).Some?
  }

  /**
   * The rules that get an entry: exactly those with a mode, in order (the
   * order is `MappedAppend`).
   */
  function Mapped(controls: seq<ControlRule>): (r: seq<ControlRule>)
    ensures |r| <= |controls|
    ensures forall k :: 0 <= k < |r| ==> IsMapped(r[k])
    ensures forall c :: c in r <==> c in controls && IsMapped(c)
  {
    if controls == [] then []
    else
      var front := controls[..|controls| - 1];
      var last := controls[|controls| - 1];
      assert controls == front + [last];
      Mapped(front) + (if IsMapped(last) then [last] else [])
  }

  /** When no rule is unmapped (the parser's output), every rule gets an entry. */
  lemma {:induction false} AllMapped(controls: seq<ControlRule>)
    requires forall k :: 0 <= k < |controls| ==> IsCanonical(controls[k])
    ensures Mapped(controls) == controls
  {
    if controls != [] {
      var front := controls[..|controls| - 1];
      var last := controls[|controls| - 1];
      assert forall k :: 0 <= k < |front| ==> IsCanonical(front[k]) by {
        assert forall k :: 0 <= k < |front| ==> front[k] == controls[k];
      }
      AllMapped(front);
      ParsedRuleIsMapped(last);
      assert Mapped(controls) == Mapped(front) + [last];
      FrontLast(controls);
    }
  }

  /** The actuator entry of each rule, as a function value. */
  function EntryOf(byElem: map<Option<string>, UserPlc>, linkClass: string -> Option<string>)
    : ControlRule -> Result<PlcConfig, BuildError>
  {
    ctl => ActuatorEntry(ctl, byElem, linkClass)
  }

  /**
   * The actuator entries of the rules, in order, or the error of the first
   * failing entry; never a node lookup error, since the first loop looks up links only.
   */
  function Actuators(rules: seq<ControlRule>, byElem: map<Option<string>, UserPlc>, linkClass: string -> Option<string>)
    : (r: Result<seq<PlcConfig>, BuildError>)
    ensures r.Err? ==> !r.error.UnknownNode?
    ensures r.Ok? ==> |r.value| == |rules|
  {
    CollectErrorOrigin(EntryOf(byElem, linkClass), rules);
    Collect(EntryOf(byElem, linkClass), rules)
  }

  /** The conditioning nodes of the mapped rules. */
  function NodesOf(rules: seq<ControlRule>): set<string> {
    set k | 0 <= k < |rules| :: rules[k].nodeId
  }

  /** `f"10.0.1.{len(runtime_plcs) + 10}"`. */
  function SensorIp(position: nat): string {
    "10.0.1." + NatToString(position + 10)
  }

  /** The sensor entry appended for `node` when the list holds `position` entries. */
  function SensorEntry(node: string, position: nat, cls: string): (e: PlcConfig)
    ensures e.id == Some("PLC_SENSOR_" + node) && e.elementId == Some(node)
    ensures e.role == Some("sensor") && e.ip == Some(SensorIp(position))
    ensures e.logic == Some(Logic(Some("report_level"), Some(node), None, None))
    ensures e.elementType == Some(NodeTypeOf(cls))
  {
    PlcConfig(
      Some("PLC_SENSOR_" + node), Some(node), Some(SensorIp(position)), Some("sensor"),
      Some(NodeTypeOf(cls)), Some(Logic(Some("report_level"), Some(node), None, None)))
  }

  /** Sensor ips are pairwise distinct, whatever order the nodes are visited in. */
  lemma SensorIpsDistinct(order: seq<string>, offset: nat, nodeClass: string -> Option<string>)
    requires forall k :: 0 <= k < |order| ==> nodeClass(order[k]).Some?
    ensures forall k, l :: 0 <= k < l < |order| ==>
      SensorEntries(order, offset, nodeClass)[k].ip != SensorEntries(order, offset, nodeClass)[l].ip
  {
    var e := SensorEntries(order, offset, nodeClass);
    forall k, l | 0 <= k < l < |order|
      ensures e[k].ip != e[l].ip
    {
      SensorIpInjective(offset + k, offset + l);
    }
  }

  /** Different positions give different sensor ips. */
  lemma SensorIpInjective(a: nat, b: nat)
    requires a != b
    ensures SensorIp(a) != SensorIp(b)
  {
    var x, y := NatToString(a + 10), NatToString(b + 10);
    if x == y {
      NatToStringInjective(a + 10, b + 10);
    }
    assert SensorIp(a)[7..] == x && SensorIp(b)[7..] == y;
  }

  /**
   * For an iteration order of `nodes`, the sensor entries cover every node
   * exactly once, as many entries as nodes.
   */
  lemma SensorEntriesCoverNodes(order: seq<string>, nodes: set<string>, offset: nat, nodeClass: string -> Option<string>)
    requires IsEnumeration(order, nodes)
    requires forall k :: 0 <= k < |order| ==> nodeClass(order[k]).Some?
    ensures |SensorEntries(order, offset, nodeClass)| == |nodes|
    ensures forall n :: n in nodes ==>
      exists k :: 0 <= k < |order| && SensorEntries(order, offset, nodeClass)[k].elementId == Some(n)
    ensures forall k, l :: 0 <= k < l < |order| ==>
      SensorEntries(order, offset, nodeClass)[k].elementId != SensorEntries(order, offset, nodeClass)[l].elementId
  {
    EnumerationSize(order, nodes);
    var e := SensorEntries(order, offset, nodeClass);
    var ids := seq(|e|, k requires 0 <= k < |e| => e[k].elementId);
    EnumerationIds(order, nodes, ids);
  }

  /** Tagging each element of an iteration order gives every element's tag exactly once. */
  lemma EnumerationIds(order: seq<string>, nodes: set<string>, ids: seq<Option<string>>)
    requires IsEnumeration(order, nodes)
    requires |ids| == |order| && forall k :: 0 <= k < |order| ==> ids[k] == Some(order[k])
    ensures forall n :: n in nodes ==> exists k :: 0 <= k < |order| && ids[k] == Some(n)
    ensures forall k, l :: 0 <= k < l < |order| ==> ids[k] != ids[l]
  {
    forall n | n in nodes
      ensures exists k :: 0 <= k < |order| && ids[k] == Some(n)
    {
      assert n in Elems(order);
      var k :| 0 <= k < |order| && order[k] == n;
      assert ids[k] == Some(n);
    }
  }

  /**
   * The k-th sensor entry's ip is `10.0.1.` followed by the decimal digits
   * of (entries before it) + 10, so the suffixes increase in append order.
   */
  lemma SensorIpSuffix(order: seq<string>, offset: nat, nodeClass: string -> Option<string>, k: nat)
    requires forall k :: 0 <= k < |order| ==> nodeClass(order[k]).Some?
    requires k < |order|
    ensures var ip := SensorEntries(order, offset, nodeClass)[k].ip;
      ip.Some? && |ip.value| > 7 && ip.value[..7] == "10.0.1." &&
      (forall j :: 0 <= j < |ip.value| - 7 ==> IsDigit(ip.value[7..][j])) &&
      DigitsValue(ip.value[7..]) == offset + k + 10
  {
    SensorIpDigits(offset + k);
  }

  /** A sensor ip is `10.0.1.` followed by the decimal digits of the position plus 10. */
  lemma SensorIpDigits(position: nat)
    ensures var ip := SensorIp(position);
      |ip| > 7 && ip[..7] == "10.0.1." &&
      (forall j :: 0 <= j < |ip| - 7 ==> IsDigit(ip[7..][j])) &&
      DigitsValue(ip[7..]) == position + 10
  {
    var digits := NatToString(position + 10);
    DigitsValueOfNatToString(position + 10);
    assert SensorIp(position)[7..] == digits;
    assert SensorIp(position)[..7] == "10.0.1.";
  }

  /** When every entry succeeds, the entries are those of the rules, index by index. */
  lemma ActuatorsEntries(rules: seq<ControlRule>, byElem: map<Option<string>, UserPlc>, linkClass: string -> Option<string>)
    requires Actuators(rules, byElem, linkClass).Ok?
    ensures forall k :: 0 <= k < |rules| ==>
      ActuatorEntry(rules[k], byElem, linkClass) == Ok(Actuators(rules, byElem, linkClass).value[k])
  {
    CollectEntries(EntryOf(byElem, linkClass), rules);
  }

  /** When an entry fails, the error is that of the first rule whose entry fails. */
  lemma ActuatorsFirstError(rules: seq<ControlRule>, byElem: map<Option<string>, UserPlc>, linkClass: string -> Option<string>)
    returns (k: nat)
    requires Actuators(rules, byElem, linkClass).Err?
    ensures k < |rules| && ActuatorEntry(rules[k], byElem, linkClass) == Err(Actuators(rules, byElem, linkClass).error)
    ensures forall l :: 0 <= l < k ==> ActuatorEntry(rules[l], byElem, linkClass).Ok?
  {
    k := CollectFirstError(EntryOf(byElem, linkClass), rules);
  }

  /**
   * The shape of a built list: one actuator entry per mapped rule, all of
   * them first, then one sensor entry per distinct conditioning node.
   */
  lemma BuiltListLayout(rules: seq<ControlRule>, byElem: map<Option<string>, UserPlc>, linkClass: string -> Option<string>,
                        order: seq<string>, nodeClass: string -> Option<string>)
    requires Actuators(rules, byElem, linkClass).Ok?
    requires IsEnumeration(order, NodesOf(rules))
    requires forall k :: 0 <= k < |order| ==> nodeClass(order[k]).Some?
    ensures var actuators := Actuators(rules, byElem, linkClass).value;
      var all := actuators + SensorEntries(order, |actuators|, nodeClass);
      |all| == |rules| + |NodesOf(rules)| &&
      (forall k :: 0 <= k < |rules| ==> all[k].role == Some("actuator")) &&
      (forall k :: |rules| <= k < |all| ==> all[k].role == Some("sensor"))
  {
    EnumerationSize(order, NodesOf(rules));
    ActuatorRoles(rules, byElem, linkClass);
  }

  /** Every actuator entry has the actuator role. */
  lemma ActuatorRoles(rules: seq<ControlRule>, byElem: map<Option<string>, UserPlc>, linkClass: string -> Option<string>)
    requires Actuators(rules, byElem, linkClass).Ok?
    ensures forall k :: 0 <= k < |rules| ==> Actuators(rules, byElem, linkClass).value[k].role == Some("actuator")
  {
    ActuatorsEntries(rules, byElem, linkClass);
    forall k | 0 <= k < |rules|
      ensures Actuators(rules, byElem, linkClass).value[k].role == Some("actuator")
    {
      ActuatorEntryFields(rules[k], byElem, linkClass);
    }
  }

  lemma NodesOfSnoc(rules: seq<ControlRule>, ctl: ControlRule)
    ensures NodesOf(rules + [ctl]) == NodesOf(rules) + {ctl.nodeId}
  {
    var s := rules + [ctl];
    assert forall k :: 0 <= k < |rules| ==> s[k] == rules[k];
    assert s[|rules|] == ctl;
  }

  // ---------------------------------------------------------------------
  // build_runtime_plc_config
  // ---------------------------------------------------------------------

  /** `user_plc_config.get("plcs", [])` as iterated: None cannot be iterated. */
  function Roster(user: UserConfig): (r: Result<seq<UserPlc>, BuildError>)
    ensures r.Err? <==> user.plcs == Null
    ensures r.Err? ==> r.error == RosterNotIterable
    ensures user.plcs == Absent ==> r == Ok([])
    ensures user.plcs.Val? ==> r == Ok(user.plcs.value)
  {
    match user.plcs
    case Absent => Ok([])
    case Null => Err(RosterNotIterable)
    case Val(plcs) => Ok(plcs)
  }

  /** `user_by_elem`: the roster indexed by element id. */
  function UserIndex(user: UserConfig): (r: Result<map<Option<string>, UserPlc>, BuildError>)
    ensures Roster(user).Err? ==> r == Err(RosterNotIterable)
    ensures Roster(user).Ok? ==> r == IndexByElement(Roster(user).value)
  {
    var plcs :- Roster(user);
    IndexByElement(plcs)
  }

  /** `user_plc_config.get("scada", {})`: the default only for a missing key, None kept as None. */
  function ScadaSettings(user: UserConfig): (r: Option<Settings>)
    ensures user.scada == Absent ==> r == Some(map[])
    ensures user.scada == Null ==> r == None
    ensures user.scada.Val? ==> r == Some(user.scada.value)
  {
    match user.scada
    case Absent => Some(map[])
    case Null => None
    case Val(v) => Some(v)
  }

  /**
   * `build_runtime_plc_config` given the parsed rules. On success the PLC
   * list is the actuator entries of the mapped rules, in rule order, then
   * one sensor entry per distinct conditioning node with ip suffix
   * (entries before it) + 10; the scada settings are copied. It fails
   * exactly when the roster index, an actuator entry or a node lookup does.
   */
  method BuildRuntimePlcConfig(user: UserConfig, controls: seq<ControlRule>,
                               linkClass: string -> Option<string>, nodeClass: string -> Option<string>)
    returns (r: Result<RuntimeConfig, BuildError>, ghost order: seq<string>)
    ensures UserIndex(user).Err? ==> r == Err(UserIndex(user).error)
    ensures user.plcs == Null ==> r == Err(RosterNotIterable)
    ensures UserIndex(user).Ok? && Actuators(Mapped(controls), UserIndex(user).value, linkClass).Err? ==>
      r == Err(Actuators(Mapped(controls), UserIndex(user).value, linkClass).error)
    ensures r.Ok? <==>
      UserIndex(user).Ok? &&
      Actuators(Mapped(controls), UserIndex(user).value, linkClass).Ok? &&
      forall n :: n in NodesOf(Mapped(controls)) ==> nodeClass(n).Some?
    ensures UserIndex(user).Ok? && Actuators(Mapped(controls), UserIndex(user).value, linkClass).Ok? ==>
      (r.Err? ==> r.error.UnknownNode?)
    ensures r.Err? && r.error.UnknownNode? ==>
      r.error.nodeId in NodesOf(Mapped(controls)) && nodeClass(r.error.nodeId).None?
    ensures r.Ok? ==>
      var actuators := Actuators(Mapped(controls), UserIndex(user).value, linkClass).value;
      IsEnumeration(order, NodesOf(Mapped(controls))) &&
      (forall k :: 0 <= k < |order| ==> nodeClass(order[k]).Some?) &&
      r.value.plcs == actuators + SensorEntries(order, |actuators|, nodeClass)
    ensures r.Ok? ==> r.value.scada == ScadaSettings(user)
  {
    order := [];
    var index := UserIndex(user);
    if index.Err? {
      return Err(index.error), order;
    }
    var runtime, sensorNodes := CollectActuators(controls, index.value, linkClass);
    if runtime.Err? {
      return Err(runtime.error), order;
    }
    // Only actuator entries exist so far, so `existing_sensor_nodes` is empty.
    var actuators := runtime.value;
    var existing := set p | p in actuators && p.role == Some("sensor") :: p.elementId;
    ActuatorRoles(Mapped(controls), index.value, linkClass);
    assert existing == {};
    assert Wanted(sensorNodes, existing) == sensorNodes;
    var all;
    all, order := AppendSensorEntries(actuators, sensorNodes, existing, nodeClass);
    if all.Err? {
      return Err(all.error), order;
    }
    r := Ok(RuntimeConfig(ScadaSettings(user), all.value));
  }

  /**
   * The first loop of `build_runtime_plc_config`: an actuator entry for
   * every mapped rule, in rule order, stopping at the first that fails, and
   * the set of their conditioning nodes.
   */
  method CollectActuators(controls: seq<ControlRule>, byElem: map<Option<string>, UserPlc>,
                          linkClass: string -> Option<string>)
    returns (r: Result<seq<PlcConfig>, BuildError>, sensorNodes: set<string>)
    ensures r == Actuators(Mapped(controls), byElem, linkClass)
    ensures r.Ok? ==> sensorNodes == NodesOf(Mapped(controls))
  {
    var runtime: seq<PlcConfig> := [];
    sensorNodes := {};
    for i := 0 to |controls|
      invariant Actuators(Mapped(controls[..i]), byElem, linkClass) == Ok(runtime)
      invariant sensorNodes == NodesOf(Mapped(controls[..i]))
    {
      var ctl := controls[i];
      CollectStep(controls, i, byElem, linkClass);
      var mode := LogicMode(ctl.comparator, ctl.action);
      if mode.Some? {
        var entry := ActuatorEntry(ctl, byElem, linkClass);
        if entry.Err? {
          return Err(entry.error), sensorNodes;
        }
        runtime := runtime + [entry.value];
        sensorNodes := sensorNodes + {ctl.nodeId};
      }
    }
    assert controls[..|controls|] == controls;
    r := Ok(runtime);
  }

  /** The nodes of `nodes` that no existing sensor entry covers. */
  function Wanted(nodes: set<string>, existing: set<Option<string>>): set<string> {
    set n | n in nodes && Some(n) !in existing
  }

  /**
   * The second loop of `build_runtime_plc_config`: for every node not yet
   * covered, in whatever order the set yields them (`order`), append its
   * sensor entry, whose ip depends on the current length of the list.
   */
  method AppendSensorEntries(runtime: seq<PlcConfig>, nodes: set<string>, existing: set<Option<string>>,
                             nodeClass: string -> Option<string>)
    returns (r: Result<seq<PlcConfig>, BuildError>, ghost order: seq<string>)
    ensures r.Ok? <==> forall n :: n in Wanted(nodes, existing) ==> nodeClass(n).Some?
    ensures r.Err? ==> r.error.UnknownNode? && r.error.nodeId in Wanted(nodes, existing) && nodeClass(r.error.nodeId).None?
    ensures r.Ok? ==>
      IsEnumeration(order, Wanted(nodes, existing)) &&
      (forall k :: 0 <= k < |order| ==> nodeClass(order[k]).Some?) &&
      r.value == runtime + SensorEntries(order, |runtime|, nodeClass)
  {
    ghost var wanted := Wanted(nodes, existing);
    var out := runtime;
    var remaining := nodes;
    order := [];
    assert runtime + [] == runtime;
    while remaining != {}
      invariant remaining <= nodes
      invariant Distinct(order) && Elems(order) == wanted - remaining
      invariant forall k :: 0 <= k < |order| ==> nodeClass(order[k]).Some?
      invariant out == runtime + SensorEntries(order, |runtime|, nodeClass)
      decreases |remaining|
    {
      var n :| n in remaining;
      if Some(n) !in existing {
        var cls := nodeClass(n);
        if cls.None? {
          return Err(UnknownNode(n)), order;
        }
        var entry := SensorEntry(n, |out|, cls.value);
        AppendSensorStep(runtime, out, order, n, nodeClass);
        EnumerationStep(order, n, wanted, remaining);
        out := out + [entry];
        order := order + [n];
      } else {
        assert wanted - (remaining - {n}) == wanted - remaining;
      }
      remaining := remaining - {n};
    }
    EveryListedClassified(order, nodeClass);
    r := Ok(out);
  }

  /** Every element of a list whose entries all have a class has a class. */
  lemma EveryListedClassified(order: seq<string>, nodeClass: string -> Option<string>)
    requires forall k :: 0 <= k < |order| ==> nodeClass(order[k]).Some?
    ensures forall n :: n in Elems(order) ==> nodeClass(n).Some?
  {
    forall n | n in Elems(order)
      ensures nodeClass(n).Some?
    {
      var k :| 0 <= k < |order| && order[k] == n;
    }
  }

  /** A non-empty sequence is its front followed by its last element. */
  lemma FrontLast<T>(s: seq<T>)
    requires s != []
    ensures s[..|s| - 1] + [s[|s| - 1]] == s
  {
  }

  /** A sequence is its prefix up to `j` followed by the rest. */
  lemma CutJoin<T>(s: seq<T>, j: nat)
    requires j <= |s|
    ensures s[..j] + s[j..] == s
  {
  }

  /** The elements of a sequence. */
  function Elems(s: seq<string>): set<string> {
    set k | 0 <= k < |s| :: s[k]
  }

  predicate Distinct(s: seq<string>) {
    forall k, l :: 0 <= k < l < |s| ==> s[k] != s[l]
  }

  /** `order` lists every element of `nodes` exactly once: an iteration order of the set. */
  predicate IsEnumeration(order: seq<string>, nodes: set<string>) {
    Distinct(order) && Elems(order) == nodes
  }

  lemma EnumerationStep(order: seq<string>, n: string, wanted: set<string>, remaining: set<string>)
    requires Distinct(order) && Elems(order) == wanted - remaining
    requires n in remaining && n in wanted
    ensures Distinct(order + [n]) && Elems(order + [n]) == wanted - (remaining - {n})
  {
    var s := order + [n];
    assert forall k :: 0 <= k < |order| ==> s[k] == order[k];
    assert s[|order|] == n;
    assert Elems(s) == Elems(order) + {n};
  }

  /** An iteration order has as many elements as the set. */
  lemma {:induction false} EnumerationSize(order: seq<string>, nodes: set<string>)
    requires IsEnumeration(order, nodes)
    ensures |order| == |nodes|
    decreases |order|
  {
    if order != [] {
      var front := order[..|order| - 1];
      var last := order[|order| - 1];
      assert forall k :: 0 <= k < |front| ==> front[k] == order[k];
      assert Elems(order) == Elems(front) + {last};
      assert last !in Elems(front);
      EnumerationSize(front, nodes - {last});
    }
  }

  lemma MappedSnoc(controls: seq<ControlRule>, i: nat)
    requires i < |controls|
    ensures Mapped(controls[..i + 1]) == Mapped(controls[..i]) + (if IsMapped(controls[i]) then [controls[i]] else [])
  {
    assert controls[..i + 1][..i] == controls[..i];
  }

  /** What reading rule `i` does to the entries and the conditioning nodes collected so far. */
  lemma CollectStep(controls: seq<ControlRule>, i: nat, byElem: map<Option<string>, UserPlc>,
                    linkClass: string -> Option<string>)
    requires i < |controls|
    requires Actuators(Mapped(controls[..i]), byElem, linkClass).Ok?
    ensures !IsMapped(controls[i]) ==>
      Mapped(controls[..i + 1]) == Mapped(controls[..i])
    ensures IsMapped(controls[i]) && ActuatorEntry(controls[i], byElem, linkClass).Ok? ==>
      Actuators(Mapped(controls[..i + 1]), byElem, linkClass)
        == Ok(Actuators(Mapped(controls[..i]), byElem, linkClass).value + [ActuatorEntry(controls[i], byElem, linkClass).value]) &&
      NodesOf(Mapped(controls[..i + 1])) == NodesOf(Mapped(controls[..i])) + {controls[i].nodeId}
    ensures IsMapped(controls[i]) && ActuatorEntry(controls[i], byElem, linkClass).Err? ==>
      Actuators(Mapped(controls), byElem, linkClass) == Err(ActuatorEntry(controls[i], byElem, linkClass).error)
  {
    MappedSnoc(controls, i);
    if IsMapped(controls[i]) {
      CollectSnoc(EntryOf(byElem, linkClass), Mapped(controls[..i]), controls[i]);
      NodesOfSnoc(Mapped(controls[..i]), controls[i]);
      if ActuatorEntry(controls[i], byElem, linkClass).Err? {
        FirstErrorWins(controls, i, EntryOf(byElem, linkClass));
      }
    } else {
      assert Mapped(controls[..i]) + [] == Mapped(controls[..i]);
    }
  }

  /** An entry that fails after `i` rules makes the whole list of entries fail with its error. */
  lemma FirstErrorWins(controls: seq<ControlRule>, i: nat, f: ControlRule -> Result<PlcConfig, BuildError>)
    requires i < |controls| && IsMapped(controls[i])
    requires Collect(f, Mapped(controls[..i])).Ok?
    requires f(controls[i]).Err?
    ensures Collect(f, Mapped(controls)) == Err(f(controls[i]).error)
  {
    MappedSnoc(controls, i);
    CollectSnoc(f, Mapped(controls[..i]), controls[i]);
    CutJoin(controls, i + 1);
    MappedAppend(controls[..i + 1], controls[i + 1..]);
    CollectErrPrefix(f, Mapped(controls[..i + 1]), Mapped(controls[i + 1..]));
  }

  lemma {:induction false} MappedAppend(a: seq<ControlRule>, b: seq<ControlRule>)
    ensures Mapped(a + b) == Mapped(a) + Mapped(b)
  {
    if b == [] {
      assert a + b == a;
    } else {
      var front := b[..|b| - 1];
      assert (a + b)[..|a + b| - 1] == a + front && (a + b)[|a + b| - 1] == b[|b| - 1];
      MappedAppend(a, front);
    }
  }

  // ---------------------------------------------------------------------
  // Collecting results that may fail
  // ---------------------------------------------------------------------

  /** `f` applied to each element in turn, stopping at the first error. */
  function Collect<A, B, E>(f: A -> Result<B, E>, s: seq<A>): (r: Result<seq<B>, E>)
    ensures r.Ok? ==> |r.value| == |s|
  {
    if s == [] then Ok([])
    else
      var front :- Collect(f, s[..|s| - 1]);
      var last :- f(s[|s| - 1]);
      Ok(front + [last])
  }

  /** A successful collection holds the results of `f`, index by index. */
  lemma {:induction false} CollectEntries<A, B, E>(f: A -> Result<B, E>, s: seq<A>)
    requires Collect(f, s).Ok?
    ensures forall k :: 0 <= k < |s| ==> f(s[k]) == Ok(Collect(f, s).value[k])
    decreases |s|
  {
    if s != [] {
      var front := s[..|s| - 1];
      CollectEntries(f, front);
      var all, first := Collect(f, s).value, Collect(f, front).value;
      assert all == first + [f(s[|s| - 1]).value];
      assert forall k :: 0 <= k < |front| ==> all[k] == first[k] && s[k] == front[k];
    }
  }

  /** A failed collection fails with the error of the first element on which `f` fails. */
  lemma {:induction false} CollectFirstError<A, B, E>(f: A -> Result<B, E>, s: seq<A>) returns (k: nat)
    requires Collect(f, s).Err?
    ensures k < |s| && f(s[k]) == Err(Collect(f, s).error)
    ensures forall l :: 0 <= l < k ==> f(s[l]).Ok?
    decreases |s|
  {
    var front := s[..|s| - 1];
    assert forall l :: 0 <= l < |front| ==> s[l] == front[l];
    if Collect(f, front).Err? {
      k := CollectFirstError(f, front);
    } else {
      k := |s| - 1;
      CollectEntries(f, front);
    }
  }

  /** A failed collection's error is one of `f`'s. */
  lemma CollectErrorOrigin<A, B, E>(f: A -> Result<B, E>, s: seq<A>)
    ensures Collect(f, s).Err? ==> exists k :: 0 <= k < |s| && f(s[k]) == Err(Collect(f, s).error)
  {
    if Collect(f, s).Err? {
      var k := CollectFirstError(f, s);
    }
  }

  /** Collecting one more element appends its result, or fails with its error. */
  lemma CollectSnoc<A, B, E>(f: A -> Result<B, E>, s: seq<A>, x: A)
    requires Collect(f, s).Ok?
    ensures f(x).Ok? ==> Collect(f, s + [x]) == Ok(Collect(f, s).value + [f(x).value])
    ensures f(x).Err? ==> Collect(f, s + [x]) == Err(f(x).error)
  {
    assert (s + [x])[..|s|] == s;
  }

  /** Nothing after a failure is looked at. */
  lemma {:induction false} CollectErrPrefix<A, B, E>(f: A -> Result<B, E>, s: seq<A>, t: seq<A>)
    requires Collect(f, s).Err?
    ensures Collect(f, s + t) == Collect(f, s)
    decreases |t|
  {
    if t == [] {
      assert s + t == s;
    } else {
      var front := t[..|t| - 1];
      assert (s + t)[..|s + t| - 1] == s + front;
      CollectErrPrefix(f, s, front);
    }
  }

  /** The sensor entries for `order`, the first appended when the list held `offset` entries. */
  function SensorEntries(order: seq<string>, offset: nat, nodeClass: string -> Option<string>): (r: seq<PlcConfig>)
    requires forall k :: 0 <= k < |order| ==> nodeClass(order[k]).Some?
  {
    seq(|order|, k requires 0 <= k < |order| => SensorEntry(order[k], offset + k, nodeClass(order[k]).value))
  }

  /** One step of the second loop keeps the list equal to the runtime entries followed by the sensor entries so far. */
  lemma AppendSensorStep(runtime: seq<PlcConfig>, out: seq<PlcConfig>, order: seq<string>, n: string,
                         nodeClass: string -> Option<string>)
    requires forall k :: 0 <= k < |order| ==> nodeClass(order[k]).Some?
    requires nodeClass(n).Some?
    requires out == runtime + SensorEntries(order, |runtime|, nodeClass)
    ensures forall k :: 0 <= k < |order + [n]| ==> nodeClass((order + [n])[k]).Some?
    ensures out + [SensorEntry(n, |out|, nodeClass(n).value)] == runtime + SensorEntries(order + [n], |runtime|, nodeClass)
  {
    SensorEntriesSnoc(order, n, |runtime|, nodeClass);
    assert forall k :: 0 <= k < |order| ==> (order + [n])[k] == order[k];
  }

  lemma SensorEntriesSnoc(order: seq<string>, n: string, offset: nat, nodeClass: string -> Option<string>)
    requires forall k :: 0 <= k < |order| ==> nodeClass(order[k]).Some?
    requires nodeClass(n).Some?
    ensures SensorEntries(order + [n], offset, nodeClass)
         == SensorEntries(order, offset, nodeClass) + [SensorEntry(n, offset + |order|, nodeClass(n).value)]
  {
    var s := order + [n];
    assert forall k :: 0 <= k < |order| ==> s[k] == order[k];
    assert s[|order|] == n;
  }
}
