# Control-logic engine of DHALSIM-SE, modelled in Dafny

DHALSIM-SE simulates the supervisory-control layer of a water-distribution
network. PLC agents, each bound to one pump, valve or tank, exchange
observation requests and command replies with one SCADA server at every
simulation step. This project models the four components that hold the
control logic, and proves each against its own contract:

- **Control-rule parser** (`controls_parser.dfy`, module `ControlsParser`).
  It scans the lines of an EPANET INP document for the `[CONTROLS]` section.
  It matches `LINK <id> OPEN|CLOSED IF NODE <id> BELOW|ABOVE <num> [PRIORITY <int>]`
  with Python's case-insensitive, start-anchored regular-expression semantics,
  and numbers the matched rules. The loop is the method `ParseControlsFromInp`.
  It is proved equal to the function `ParseControls`, which is a scan over
  line classifications (`Classify`).
- **Grammar of a control line** (`controls_grammar.dfy`, module
  `ControlsGrammar`). It writes the rule pattern out as a spelling: each
  keyword in the case it is written in, and the whitespace between the
  items. The matcher is proved against it in both directions. A spelled line
  is matched with exactly its own items. Every line the matcher accepts is a
  spelling followed by some tail.
- **Runtime PLC configuration builder** (`runtime_plc_builder.dfy`, module
  `RuntimePlcBuilder`). It maps each mapped rule to one actuator entry,
  taking the entry's identity from the user roster or synthesising it. It
  then appends one sensor entry per distinct conditioning node, whose ip
  depends on the list length. `BuildRuntimePlcConfig` and its two loops are
  methods. The set loop picks its next node with `:|`, so the proof holds for
  every iteration order. The method returns that order as a ghost
  enumeration.
- **PLC agent** (`plc_node.dfy`, module `PlcNode`). `PlcLogic` is a class
  whose fields `lastReply` and `cachedRequest` are overwritten in place. Its
  methods are proved to compute the reference functions `RequestFor` and
  `ActuatorEffect`.
- **SCADA server** (`scada_node.dfy`, module `ScadaNode`). `ScadaServer` is
  a class over the four maps the server keeps. Its `HandlePlcRequest` updates
  them in place and is proved to agree with the function `Handle`. The
  properties of a request are lemmas about `Handle`.

Shared modules:

- `wrappers.dfy`: `Option`, `Result`, and `Field`. A `Field` is a dictionary
  key that is missing, present as None, or present with a value.
- `text.dfy`: Python's `str.isspace`, `strip`, `upper` and `str(int)`, and
  case-insensitive keyword matching.
- `records.dfy`: the dictionary shapes the components exchange.

Outside calls are parameters:

- Python's `float` on a string is `toFloat: string -> Option<real>`. It
  gives None where `float` raises.
- WNTR's `get_link` / `get_node` class-name lookups are
  `linkClass` / `nodeClass: string -> Option<string>`. They give None where
  WNTR raises `KeyError`.

Exceptions the code lets escape become `Err` values:

- `KeyError` on a roster entry or a configuration;
- `KeyError` from WNTR;
- `ValueError` from `float`;
- `TypeError` from `10000 < None`;
- `TypeError` from iterating a `plcs` key that holds None.

The docstring of `ControlRule` (physical/controls_parser.py:12-16) says that
priority and `rule_index` resolve conflicts: higher priority wins, and ties
go to the later rule. No code uses them that way. The parser only records
the two fields, the builder emits one entry per rule, and the SCADA server
evaluates each PLC's single mode string. The model follows the code.

What the code does not do, and the model therefore does not do either:

- With no level available, the SCADA server's logic yields no command and
  the previous command stays. It does not fall back to a last known physical
  status.
- The SCADA sensor path ingests only `tank_level`, and only for a `tank`
  configuration. The PLC sends `tank_level`, and never `level`.
- Synthesised sensors are visited in set order, not in the order their
  rules came. Each ip suffix is the current list length plus 10.
- The PLC's actuator effect ignores `override_action`. It does not let the
  override win.

## Model

| member | source | states |
|---|---|---|
| ControlsParser.MatchRule | physical/controls_parser.py:40-44 | A match yields captures in the regex's shape: link and node ids are non-empty runs of non-whitespace; action and comparator match OPEN/CLOSED and BELOW/ABOVE case-insensitively (including the Unicode letters Python's IGNORECASE accepts); the threshold is a non-empty run of `0-9eE.+-`; the optional priority is decimal digits. Trailing text is tolerated. A match starts with `L` or `l`, so a rule line is never a header or a `[` line. |
| ControlsGrammar.SpelledLineMatches | physical/controls_parser.py:40-44 | Every spelling of `LINK <id> OPEN\|CLOSED IF NODE <id> BELOW\|ABOVE <num> [PRIORITY <int>]`, in any letter case and with any whitespace runs between the items, is matched. The groups are the link, action, node, comparator and threshold as written, and the priority digits exactly when the clause is present. The tail after the spelling must satisfy `EndsRule`. With a PRIORITY clause it must not start with a digit. Without one, it must start with neither a threshold character nor whitespace. Under that condition the tail does not change the match. |
| ControlsGrammar.MatchedLineIsSpelled | physical/controls_parser.py:40-44 | Every line the matcher accepts is such a spelling followed by a tail, and the groups are that spelling's items. |
| ControlsGrammar.LettersDisjoint | physical/controls_parser.py:41 | No character matches two different letters case-insensitively, so OPEN/CLOSED and BELOW/ABOVE never both match at one place. |
| ControlsParser.MakeRule | physical/controls_parser.py:63-73 | The rule's comparator is exactly BELOW or ABOVE and its action exactly OPEN or CLOSED, whatever case was matched, and which keyword matched is preserved. Priority is 0 without a PRIORITY clause, otherwise the clause's decimal value. Link, node, threshold and index are copied. |
| ControlsParser.Classify | physical/controls_parser.py:49-62 | A stripped line is skipped exactly when blank or `;`-prefixed. It is a header exactly when not skipped and its upper-case form starts with `[CONTROLS]`. It ends the section exactly when it starts with `[` and is not a header. A rule line carries the match of the stripped text. |
| ControlsParser.Scan | physical/controls_parser.py:48-75 | Scanning yields at most one rule per line, and the k-th rule has index `index + k` and canonical keywords. |
| ControlsParser.ParseControls | physical/controls_parser.py:27-76 | The result has at most as many rules as lines, and the k-th rule has `rule_index == k` with canonical comparator and action. |
| ControlsParser.ParseControlsFromInp | physical/controls_parser.py:38-76 | The loop with its `in_controls` flag, its `rule_index` counter and its early `break` returns exactly `ParseControls`, rule indices 0..n-1. |
| ControlsParser.NoSectionNoRules | physical/controls_parser.py:52-59 | A document with no `[CONTROLS]` header yields no rules. |
| ControlsParser.PreambleIgnored | physical/controls_parser.py:52-59 | Lines before the first header have no effect on the result. |
| ControlsParser.StopsAtNextSection | physical/controls_parser.py:55-57 | After a header, a line starting with `[` ends scanning: nothing after it affects the result. |
| ControlsParser.RepeatedHeaderIsInert | physical/controls_parser.py:52-54 | A repeated `[CONTROLS]` header after the first one does not end scanning. Removing it changes nothing. |
| ControlsParser.SkippedLineIsInert | physical/controls_parser.py:49-51 | A blank or `;` line can be removed without changing the result, so it never advances `rule_index`. |
| ControlsParser.RulesWithinSection | physical/controls_parser.py:47-75 | The number of rules is at most the number of lines after the first header. |
| ControlsParser.RuleOrigins | physical/controls_parser.py:46-75 | Every returned rule comes from its own line: that line, matched, gives the rule with index k. Some header precedes it. The lines of successive rules strictly increase. |
| ControlsParser.InSectionRuleIsParsed | physical/controls_parser.py:46-75 | Take a line that the pattern matches after the first `[CONTROLS]` header, with no `[` line between the header and it. Whenever the parse succeeds, that line yields a rule, with index equal to the number of rules before it. |
| ControlsParser.ParseFailsExactly | physical/controls_parser.py:46-75 | The parse fails exactly when some line after the first `[CONTROLS]` header, with no `[` line between them, matches the rule pattern and has a threshold that `float` rejects. |
| ControlsParser.ParseFailure | physical/controls_parser.py:52-75 | A failed parse comes from such a line, the first one in the section, and the `ValueError` carries that line's threshold text. |
| ControlsParser.ParseFailsAt | physical/controls_parser.py:52-70 | A matched line in the section whose threshold `float` rejects makes the parse fail. |
| ControlsParser.ParseSucceeds | physical/controls_parser.py:46-75 | When every line that matches the rule pattern has a threshold `float` accepts, the parse succeeds. |
| ControlsParser.ScanFailure | physical/controls_parser.py:52-75 | A failing scan fails at the first rule line with a rejected threshold that it reaches while the section is open. The error names that threshold. |
| ControlsParser.ScanFailsAt | physical/controls_parser.py:52-70 | A rule line with a rejected threshold that the scan reaches while the section is open makes the scan fail. |
| ControlsParser.ScanKeepsRuleLine | physical/controls_parser.py:52-75 | A matched line that the scan reaches while the section is open becomes the rule numbered by the counter at that point. |
| ControlsParser.ScanEndsAtBracket | physical/controls_parser.py:55-57 | Inside the section, whatever follows a `[` line is never scanned. |
| ControlsParser.ScanRepeatedHeader | physical/controls_parser.py:52-54 | Once the section has begun, a further header line is a no-op of the scan. |
| ControlsParser.ScanSkippedLine | physical/controls_parser.py:49-51 | A skipped line is a no-op of the scan in every state. |
| Text.UpperOfKeywordMatch | physical/controls_parser.py:68-69 | Upper-casing a case-insensitive match of OPEN, CLOSED, BELOW or ABOVE gives the keyword itself. |
| Text.DigitsValueOfNatToString | config/runtime_plc_builder.py:93 | Reading back a printed number gives the number. |
| Text.NatToStringInjective | config/runtime_plc_builder.py:93 | Different numbers print differently. |
| RuntimePlcBuilder.LogicMode | config/runtime_plc_builder.py:11-16 | `LOGIC_MAP` has an entry exactly for the four pairs of BELOW/ABOVE with OPEN/CLOSED. |
| RuntimePlcBuilder.LogicModeRoundTrip | config/runtime_plc_builder.py:11-16 | `LOGIC_MAP` is one-to-one: a mode gives back the pair it came from, and only that pair. |
| RuntimePlcBuilder.ParsedRuleIsMapped | config/runtime_plc_builder.py:56-58 | Every rule the parser can return has a mode. |
| RuntimePlcBuilder.AllMapped | config/runtime_plc_builder.py:55-58 | On parser output no rule is passed over by the `continue`. |
| RuntimePlcBuilder.InferElementType | config/runtime_plc_builder.py:19-26 | The type is `pump` exactly when the lower-cased class name contains "pump". It is `valve` exactly when the name contains "valve" but not "pump". Otherwise it is `link`. |
| RuntimePlcBuilder.NodeTypeOf | config/runtime_plc_builder.py:29-36 | The type is `tank`, `reservoir` or `junction`, by the same first-substring-wins rule. |
| RuntimePlcBuilder.Roster | config/runtime_plc_builder.py:50 | A missing `plcs` key is the empty roster, a `plcs` of None raises `TypeError` when iterated, and any other value is the roster. |
| RuntimePlcBuilder.UserIndex | config/runtime_plc_builder.py:50 | The index fails with that `TypeError` first, and otherwise is the index of the roster. |
| RuntimePlcBuilder.ScadaSettings | config/runtime_plc_builder.py:100-103 | `get("scada", {})`: `{}` only when the key is missing, None when it holds None, otherwise its value. |
| RuntimePlcBuilder.IndexByElement | config/runtime_plc_builder.py:50 | Indexing the roster fails exactly when some entry has no `element_id` key, and then with that `KeyError`. Its keys are exactly the entries' element ids. |
| RuntimePlcBuilder.LastRosterEntryWins | config/runtime_plc_builder.py:50 | Among roster entries sharing an element id, the index holds the last one. |
| RuntimePlcBuilder.ActuatorEntry | config/runtime_plc_builder.py:60-80 | An entry fails only with a `KeyError` on the roster entry or on the link's class lookup. |
| RuntimePlcBuilder.ActuatorEntryFields | config/runtime_plc_builder.py:60-80 | The entry has role `actuator`, and logic `{mode: LOGIC_MAP[(comp, act)], node_id, threshold}`. Its type comes from the link's class. With no roster entry for the link, the defaults are `PLC_<link>`, the link, and `10.0.0.250`. With a roster entry, its `id` and `element_id` are used and a missing ip defaults to `10.0.0.250`. A missing `id` or `element_id` raises `KeyError`, in that order, and then an unknown link raises WNTR's `KeyError`. The entry succeeds exactly when these three are present. |
| RuntimePlcBuilder.Mapped | config/runtime_plc_builder.py:55-58 | A rule is kept exactly when it has a mode: nothing with a mode is passed over and nothing without one gets an entry. |
| RuntimePlcBuilder.MappedAppend | config/runtime_plc_builder.py:55-58 | Filtering distributes over concatenation, so the kept rules stay in the order of the rule list. |
| RuntimePlcBuilder.Actuators | config/runtime_plc_builder.py:55-81 | The first loop never fails with a node lookup error, and on success it has exactly one entry per mapped rule. |
| RuntimePlcBuilder.ActuatorsEntries | config/runtime_plc_builder.py:55-81 | On success the k-th entry is the k-th mapped rule's own entry: rule order is kept. |
| RuntimePlcBuilder.ActuatorsFirstError | config/runtime_plc_builder.py:55-81 | On failure the error is that of the first rule whose entry fails, and every earlier rule's entry succeeds. |
| RuntimePlcBuilder.CollectActuators | config/runtime_plc_builder.py:55-82 | The first loop computes `Actuators` of the mapped rules, and the set of their conditioning nodes. |
| RuntimePlcBuilder.SensorEntry | config/runtime_plc_builder.py:89-97 | A sensor entry for a node has id `PLC_SENSOR_<node>`, the node as element, role `sensor`, logic `report_level` on the node, and the ip for its position. Its type is the node's type, from the node's class. |
| RuntimePlcBuilder.SensorEntriesCoverNodes | config/runtime_plc_builder.py:84-98 | For any iteration order of the node set, every node gets exactly one sensor entry, and there are as many entries as nodes. |
| RuntimePlcBuilder.SensorIpsDistinct | config/runtime_plc_builder.py:93 | Sensor ips are pairwise distinct whatever the iteration order. |
| RuntimePlcBuilder.SensorIpSuffix | config/runtime_plc_builder.py:93 | The k-th sensor's ip is `10.0.1.` followed by the decimal form of (entries before it) + 10, so suffixes increase in append order. |
| RuntimePlcBuilder.BuiltListLayout | config/runtime_plc_builder.py:81-98 | Every actuator entry precedes every sensor entry. The length is the number of mapped rules plus the number of distinct nodes. |
| RuntimePlcBuilder.AppendSensorEntries | config/runtime_plc_builder.py:85-98 | The second loop succeeds exactly when every uncovered node has a class. A failure names such a node. On success, the list is the given one followed by the sensor entries in some enumeration of the uncovered nodes. |
| RuntimePlcBuilder.BuildRuntimePlcConfig | config/runtime_plc_builder.py:39-104 | Building fails exactly when indexing (including a `plcs` of None), an actuator entry or a node lookup fails, and with that error. Once indexing and every actuator entry succeed, the only possible failure is a node lookup, reported as `UnknownNode`. On success the PLC list is the actuator entries, then one sensor entry per distinct node, in some set order, and `existing_sensor_nodes` is empty. The `scada` settings are `ScadaSettings`: copied, `{}` when missing, None when None. |
| PlcNode.Observe | ics_network/plc_node.py:22-42 | A tank sensor has `tank_level` exactly when the snapshot has its tank, and a non-tank sensor has no observations. A pump always reports `current_status`, possibly None, and reports `tank_level` only for a non-empty `logic.tank_id` present in the snapshot. A valve always reports `pressures` and `current_setting`. Any other configuration reports nothing, and no PLC reports `level`. |
| PlcNode.RequestFor | ics_network/plc_node.py:44-49 | The request carries the configuration's id and role, the snapshot's time (key always present), and the observations. |
| PlcNode.PlcLogic.BuildRequest | ics_network/plc_node.py:17-51 | Filling the observations key by key gives `RequestFor`. The same request is cached, and the last reply is untouched. |
| PlcNode.PlcLogic.constructor | ics_network/plc_node.py:12-15 | A new agent has an empty last reply and no cached request. |
| PlcNode.Stored | ics_network/plc_node.py:54 | `reply or {}`: a None reply is stored as the empty reply. |
| PlcNode.PlcLogic.UpdateFromScadaReply | ics_network/plc_node.py:53-54 | The reply always overwrites `last_reply`, and the cached request is untouched. |
| PlcNode.ActuatorEffect | ics_network/plc_node.py:56-77 | A non-actuator has no effect. An actuator's effect has at most the key `element_id`. A pump maps it to `pump_command` when present. A valve maps it to `float(valve_setting)` when present, and the effect fails exactly when that conversion fails. Every other case is empty. |
| PlcNode.OverrideActionIgnored | ics_network/plc_node.py:64-77 | Replies that differ only in `override_action` have the same effect. |
| PlcNode.PlcLogic.GetActuatorEffect | ics_network/plc_node.py:56-77 | The method returns `ActuatorEffect` of the stored reply and modifies nothing. |
| ScadaNode.InWindow | ics_network/scada_node.py:24-27 | The window is open exactly for `10000 < time < 15000`, strictly. A missing time counts as 0. A time of None raises `TypeError`. |
| ScadaNode.ApplyOverride | ics_network/scada_node.py:27-30 | `PLC_PUMP_1` is overridden to OFF exactly when the window is open. Every other override is kept. |
| ScadaNode.FindCfg | ics_network/scada_node.py:72-76 | The result is the first configuration whose id equals the requested one. It is None exactly when no configuration matches. |
| ScadaNode.ScadaServer.FindPlcCfg | ics_network/scada_node.py:72-76 | The search loop returns `FindCfg`. |
| ScadaNode.Ingest | ics_network/scada_node.py:78-82 | Ingesting only ever raises `KeyError("element_id")`, and it never touches the command maps or overrides. |
| ScadaNode.ScadaServer.IngestSensor | ics_network/scada_node.py:78-82 | The in-place update is exactly `Ingest`. On the exception, nothing changes. |
| ScadaNode.LevelFor | ics_network/scada_node.py:94-99 | The level is the observed `level`. Failing that, for a non-empty `node_id`, it is the cached sensor value. Otherwise there is none. |
| ScadaNode.ModeCommand | ics_network/scada_node.py:101-109 | A command exists exactly for the four modes, and it is OPEN or CLOSED. |
| ScadaNode.Dispatch | ics_network/scada_node.py:84-109 | There is a command exactly when a level is available and the mode is known. It is the mode's command against the threshold, which defaults to 0. |
| ScadaNode.ModeRealisesRule | ics_network/scada_node.py:101-108 | The mode `LOGIC_MAP` gives a rule performs that rule. The result is the rule's action when the level is below (`<`) or above (`>`) the threshold as the comparator says, and the opposite action otherwise. |
| ScadaNode.Record | ics_network/scada_node.py:42-44 | No command leaves the state as it is. A command for a configuration without `element_id` raises `KeyError`. Sensor levels and overrides are never touched. |
| ScadaNode.OverrideWindow | ics_network/scada_node.py:26-34 | After any request whose time is comparable, `PLC_PUMP_1` is overridden exactly when `10000 < time < 15000`. This holds for unknown PLCs too, and no other override changes. |
| ScadaNode.NullTimeRaises | ics_network/scada_node.py:24-27 | A time of None raises `TypeError` before any state changes. |
| ScadaNode.UnknownPlc | ics_network/scada_node.py:32-34 | An unknown `plc_id` gets `{plc_id, responses: {}, error: unknown_plc}`, and the sensor and command maps are left unchanged. |
| ScadaNode.SensorRequest | ics_network/scada_node.py:36-38 | A known sensor gets empty responses, and the command maps are unchanged. The level is recorded exactly for a tank configuration with `tank_level`. |
| ScadaNode.CommandRetention | ics_network/scada_node.py:40-55 | A pump or valve command entry is replaced exactly when the logic yields a command, even under an override. Otherwise the previous command is kept. |
| ScadaNode.ReplyChoice | ics_network/scada_node.py:45-61 | The reply carries the override if the PLC has one. Otherwise it carries the command under `pump_command` or `valve_setting`, and otherwise empty responses. |
| ScadaNode.UnknownRole | ics_network/scada_node.py:40-63 | A role other than sensor, or an actuator neither pump nor valve, gets `error: unknown_role`. Only the override window changes. |
| ScadaNode.ScadaServer.HandlePlcRequest | ics_network/scada_node.py:20-63 | The in-place handler leaves the state `Handle` gives, and returns its reply or raises its exception. |
| ScadaNode.ScadaServer.GetActuatorCommands | ics_network/scada_node.py:65-70 | The command maps are returned as they are, without clearing them. |
| ScadaNode.ScadaServer.constructor | ics_network/scada_node.py:12-18 | A new server starts with four empty maps. |

## Left out

- File access: opening the INP file and its existence check, and the WNTR
  model construction. They are I/O. The parser takes the document's lines and
  the builder takes the parsed rules.
- Python's `float` on threshold and valve-setting text is an outside oracle
  (`toFloat`). The model does not fix which strings it accepts.
- `_infer_element_type` / `_node_type`: the WNTR object graph is
  represented only by the class name its lookup yields. Lower-casing is
  ASCII-only (`LowerAscii`), which covers the class names WNTR defines.
- Text.UpperChar: produces only the ASCII letters `str.upper` can produce.
  Other characters are left unchanged, which decides every comparison the
  model makes against an upper-case keyword, but it is not `str.upper` in
  general.
- The records do not tell a key that is missing from a key that is present
  as None in these places:
  - `PlcConfig` and `Logic` fields. A present-None `element_id` is read as
    missing: `cfg["element_id"]` raises in the model.
  - A present-None `threshold`, where `float(None)` would raise.
  - A present-None `logic`, where `.get` on None would raise.
  - A present-None `responses` in a reply (ics_network/plc_node.py:68, 73).
    It is read as missing, so the PLC applies no responses
    (`GetOr(NoResponses)`), where `.get` on None would raise.
  - A present-None `observations` in a request
    (ics_network/scada_node.py:80, 95). It is read as missing, so there are no
    observations, where `.get` on None would raise.
  - A present-None `tanks`, `pumps`, `valves` or `pressures` map in the
    physical snapshot (ics_network/plc_node.py:24, 32, 35, 39-40). It is read
    as missing, so every lookup misses, where `.get` on None would raise. A
    present-None `pressures` is reported as `{}` instead of None.
- The `scada` settings are a `map<string, string>`. They are only copied.
- The SCADA `valve_commands` map is declared as `Dict[str, float]` but is
  filled with OPEN/CLOSED strings, so it is a string map here.
- The concrete order in which a Python set is iterated. The builder's
  sensor loop is proved for every order.
- No property spans the whole pipeline, because the components disagree and
  each is proved against its own contract:
  - The builder writes `logic.node_id`, but the PLC reads `logic.tank_id`.
  - The PLC sends `tank_level`, but SCADA actuator logic reads `level`.
  - The PLC ignores `override_action`.
  - SCADA sends `valve_setting` as "OPEN"/"CLOSED", which `float` cannot
    convert.
- ControlsGrammar.SpelledLineMatches: the tail condition `EndsRule` is
  sufficient, not necessary. Without a priority clause, a tail that starts
  with whitespace is not covered. Such a tail could itself be a priority
  clause.
- RuntimePlcBuilder.ActuatorsEntries: states "success iff every entry
  succeeds" together with ActuatorsFirstError, as a success lemma and a
  first-failure lemma, not as one equivalence.
- physical_sim.py, run_simulation.py, middleware, messages, topology and
  the attack stub are not part of this model. They are a simulator wrapper,
  a driver, a constant, JSON wrappers, network emulation and an identity
  function.
