/**
 The request logic of wifi-toggle.go's `handlerErr`: with a non-empty password
 it opens an SNMPv3 session to the device, walks the name column of the
 device's script table into a map from script index to script name, and, when
 a script was chosen, issues one Get on that script's run column, whose
 answer is the script's output. The device is not modelled: what it answers
 to Connect, Walk and Get is an input, and the handler returns the requests
 it issued, in order, with its outcome.
 */
module WifiToggle {
  import opened Wrappers
  import opened GoStrings
  import opened ObjectIdentifiers

  // ---------------------------------------------------------------------------
  // Constants
  // ---------------------------------------------------------------------------

  /** Root of the walk: the script-name column of the device's script table. */
  const ScriptNameColumn: string := "1.3.6.1.4.1.14988.1.1.8.1.1.2"

  /** The script-run column; a Get on `<column>.<index>` runs script `<index>`. */
  const ScriptRunColumn: string := "1.3.6.1.4.1.14988.1.1.18.1.1.2"

  const ScriptNameColumnIds: ObjectIdentifier := [1, 3, 6, 1, 4, 1, 14988, 1, 1, 8, 1, 1, 2]
  const ScriptRunColumnIds: ObjectIdentifier := [1, 3, 6, 1, 4, 1, 14988, 1, 1, 18, 1, 1, 2]

  /** Session parameters that the handler hands to the SNMP library unchanged. */
  const SnmpPort: nat := 161
  const TimeoutSeconds: nat := 1
  const Retries: nat := 3

  datatype SnmpVersion = Version3
  datatype SecurityModel = UserSecurityModel
  datatype AuthProtocol = SHA
  datatype PrivacyProtocol = NoPriv

  /** Everything the handler puts into the SNMP client before Connect. */
  datatype SessionParams = SessionParams(
    target: string,
    port: nat,
    version: SnmpVersion,
    securityModel: SecurityModel,
    userName: string,
    authProtocol: AuthProtocol,
    authPassphrase: string,
    privacyProtocol: PrivacyProtocol,
    timeoutSeconds: nat,
    retries: nat)

  /** The `-target` and `-user` command-line flags. */
  datatype Config = Config(target: string, user: string)

  function Session(config: Config, password: string): SessionParams
  {
    SessionParams(config.target, SnmpPort, Version3, UserSecurityModel, config.user,
                  SHA, password, NoPriv, TimeoutSeconds, Retries)
  }

  // ---------------------------------------------------------------------------
  // The device, as seen by the handler
  // ---------------------------------------------------------------------------

  /** The form values `password` and `execute` (absent values are ""). */
  datatype Request = Request(password: string, execute: string)

  datatype DeviceError = DeviceError(message: string)

  datatype Reply<T> = Ok(value: T) | Err(error: DeviceError)

  /** A walked variable: its dotted name and its value, taken as text. */
  datatype Pdu = Pdu(name: string, value: string)

  /**
   What a Walk does: the variables it hands to the callback, in order, and then
   its own result (a Walk may fail after delivering some variables).
   */
  datatype WalkReply = WalkReply(delivered: seq<Pdu>, status: Reply<()>)

  /** The device's answers: to Connect, to the Walk, and to the Get (its variables' values). */
  datatype Device = Device(connect: Reply<()>, walk: WalkReply, get: Reply<seq<string>>)

  /** A request the handler issues to the device. */
  datatype Op = Connect(params: SessionParams) | Walk(rootOid: string) | Get(oids: seq<string>)

  /**
   How the request ends: the page is rendered with the password, the script map
   and the result; or an SNMP error is returned; or the walk callback indexes
   the last component of a name that did not parse (Go's index out of range).
   */
  datatype Outcome =
    | Rendered(password: string, scripts: map<int, string>, result: string)
    | Failed(error: DeviceError)
    | Panicked(name: string)

  // ---------------------------------------------------------------------------
  // The walk callback: building the script map
  // ---------------------------------------------------------------------------

  /** The script index a walked name stands for: the last component of its identifier. */
  function ScriptIndex(name: string): Option<int>
  {
    match ParseOid(name)
    case None => None
    case Some(oid) => Some(LastComponent(oid))
  }

  datatype ScriptTable = Scripts(table: map<int, string>) | IndexOutOfRange(name: string)

  /** The index of every walked variable, in walk order. */
  function ScriptIndices(pdus: seq<Pdu>): (keys: seq<Option<int>>)
    ensures |keys| == |pdus|
    ensures forall i :: 0 <= i < |pdus| ==> keys[i] == ScriptIndex(pdus[i].name)
  {
    seq(|pdus|, i requires 0 <= i < |pdus| => ScriptIndex(pdus[i].name))
  }

  /**
   The map the callback builds from the variables, taken in order, when the
   i-th one has index `keys[i]`: each stores its value under its index,
   overwriting an earlier value there, and the first one without an index
   stops the walk with a panic.
   */
  function StoreScripts(pdus: seq<Pdu>, keys: seq<Option<int>>): (r: ScriptTable)
    requires |keys| == |pdus|
    ensures r.IndexOutOfRange? <==> exists j :: 0 <= j < |pdus| && keys[j].None?
    ensures r.IndexOutOfRange? ==>
              exists j :: 0 <= j < |pdus| && pdus[j].name == r.name && keys[j].None? &&
                          forall k :: 0 <= k < j ==> keys[k].Some?
  {
    if pdus == [] then Scripts(map[])
    else
      var n := |pdus| - 1;
      assert forall j :: 0 <= j < n ==> pdus[..n][j] == pdus[j] && keys[..n][j] == keys[j];
      match StoreScripts(pdus[..n], keys[..n])
      case IndexOutOfRange(name) => IndexOutOfRange(name)
      case Scripts(table) =>
        match keys[n]
        case None => IndexOutOfRange(pdus[n].name)
        case Some(k) => Scripts(table[k := pdus[n].value])
  }

  /** The map the walk callback leaves after the given variables. */
  function CollectScripts(pdus: seq<Pdu>): ScriptTable
  {
    StoreScripts(pdus, ScriptIndices(pdus))
  }

  lemma {:induction false} StoreScriptsPanicPersists(pdus: seq<Pdu>, keys: seq<Option<int>>, i: nat)
    requires |keys| == |pdus| && i <= |pdus|
    requires StoreScripts(pdus[..i], keys[..i]).IndexOutOfRange?
    ensures StoreScripts(pdus, keys) == StoreScripts(pdus[..i], keys[..i])
    decreases |pdus| - i
  {
    if i < |pdus| {
      assert pdus[..i + 1][..i] == pdus[..i];
      assert keys[..i + 1][..i] == keys[..i];
      StoreScriptsPanicPersists(pdus, keys, i + 1);
    } else {
      assert pdus[..i] == pdus && keys[..i] == keys;
    }
  }

  /** The callback loop of the walk: parse each name, store the value under its last component. */
  method WalkScripts(pdus: seq<Pdu>) returns (r: ScriptTable)
    ensures r == CollectScripts(pdus)
  {
    ghost var keys := ScriptIndices(pdus);
    var scripts: map<int, string> := map[];
    for i := 0 to |pdus|
      invariant StoreScripts(pdus[..i], keys[..i]) == Scripts(scripts)
    {
      assert pdus[..i + 1][..i] == pdus[..i];
      assert keys[..i + 1][..i] == keys[..i];
      var oid := StringToObjectIdentifier(pdus[i].name);
      if oid.None? {
        r := IndexOutOfRange(pdus[i].name);
        StoreScriptsPanicPersists(pdus, keys, i + 1);
        return;
      }
      scripts := scripts[oid.value[|oid.value| - 1] := pdus[i].value];
    }
    assert pdus[..|pdus|] == pdus && keys[..|pdus|] == keys;
    r := Scripts(scripts);
  }

  /** A walk panics exactly when some walked name has no index, and then names the first such. */
  lemma CollectScriptsPanics(pdus: seq<Pdu>)
    ensures CollectScripts(pdus).IndexOutOfRange? <==>
              exists j :: 0 <= j < |pdus| && ScriptIndex(pdus[j].name).None?
    ensures CollectScripts(pdus).IndexOutOfRange? ==>
              exists j :: 0 <= j < |pdus| && pdus[j].name == CollectScripts(pdus).name &&
                          ScriptIndex(pdus[j].name).None? &&
                          forall k :: 0 <= k < j ==> ScriptIndex(pdus[k].name).Some?
  {
  }

  /**
   One more variable: its value is now stored under its index, and every other
   index keeps what it had.
   */
  lemma CollectScriptsStep(pdus: seq<Pdu>, p: Pdu, k: int)
    requires CollectScripts(pdus).Scripts? && ScriptIndex(p.name) == Some(k)
    ensures CollectScripts(pdus + [p]).Scripts?
    ensures var before := CollectScripts(pdus).table;
            var after := CollectScripts(pdus + [p]).table;
            after.Keys == before.Keys + {k} && after[k] == p.value &&
            forall i :: i in before && i != k ==> after[i] == before[i]
  {
    var keys := ScriptIndices(pdus + [p]);
    assert (pdus + [p])[..|pdus|] == pdus;
    assert keys[..|pdus|] == ScriptIndices(pdus);
  }

  lemma {:induction false} StoreScriptsKeys(pdus: seq<Pdu>, keys: seq<Option<int>>)
    requires |keys| == |pdus| && StoreScripts(pdus, keys).Scripts?
    ensures forall k :: k in StoreScripts(pdus, keys).table <==>
                        exists j :: 0 <= j < |pdus| && keys[j] == Some(k)
    decreases |pdus|
  {
    if pdus != [] {
      var n := |pdus| - 1;
      assert forall j :: 0 <= j < n ==> keys[..n][j] == keys[j];
      StoreScriptsKeys(pdus[..n], keys[..n]);
    }
  }

  /** The indices in the map are exactly the indices of the walked names. */
  lemma CollectScriptsKeys(pdus: seq<Pdu>)
    requires CollectScripts(pdus).Scripts?
    ensures forall k :: k in CollectScripts(pdus).table <==>
                        exists j :: 0 <= j < |pdus| && ScriptIndex(pdus[j].name) == Some(k)
  {
    StoreScriptsKeys(pdus, ScriptIndices(pdus));
  }

  lemma {:induction false} StoreScriptsLastWins(pdus: seq<Pdu>, keys: seq<Option<int>>, j: nat)
    requires |keys| == |pdus| && StoreScripts(pdus, keys).Scripts?
    requires j < |pdus| && keys[j].Some?
    requires forall j' :: j < j' < |pdus| ==> keys[j'] != keys[j]
    ensures keys[j].value in StoreScripts(pdus, keys).table
    ensures StoreScripts(pdus, keys).table[keys[j].value] == pdus[j].value
    decreases |pdus|
  {
    var n := |pdus| - 1;
    assert forall i :: 0 <= i < n ==> pdus[..n][i] == pdus[i] && keys[..n][i] == keys[i];
    if j < n {
      StoreScriptsLastWins(pdus[..n], keys[..n], j);
    }
  }

  /** Later variables win: an index holds the value of the last variable walked with that index. */
  lemma CollectScriptsLastWins(pdus: seq<Pdu>, j: nat, k: int)
    requires CollectScripts(pdus).Scripts?
    requires j < |pdus| && ScriptIndex(pdus[j].name) == Some(k)
    requires forall j' :: j < j' < |pdus| ==> ScriptIndex(pdus[j'].name) != Some(k)
    ensures k in CollectScripts(pdus).table && CollectScripts(pdus).table[k] == pdus[j].value
  {
    StoreScriptsLastWins(pdus, ScriptIndices(pdus), j);
  }

  // ---------------------------------------------------------------------------
  // The trigger
  // ---------------------------------------------------------------------------

  /** The identifier of the Get that runs a script: the run column, a dot and `execute` as given. */
  function TriggerOid(execute: string): (oid: string)
    ensures |oid| == |ScriptRunColumn| + 1 + |execute|
    ensures oid[..|ScriptRunColumn| + 1] == "1.3.6.1.4.1.14988.1.1.18.1.1.2."
    ensures oid[|ScriptRunColumn| + 1..] == execute
  {
    ScriptRunColumn + "." + execute
  }

  // As with the examples of the parser, the column identifiers are printed a few
  // components per lemma, with the identifiers (and the enterprise number 14988,
  // whose decimal form is the one expensive step) passed as pinned parameters.

  lemma MikrotikPrefixFormat(ids: ObjectIdentifier, n: int)
    requires |ids| >= 7 && ids[..6] == [1, 3, 6, 1, 4, 1] && ids[6] == n && n == 14988
    ensures FormatOid(ids[..7]) == "1.3.6.1.4.1.14988"
  {
    InternetPrefixFormat(ids);
    FormatOidStep(ids, 4, "1.3.6.1", 4, "4");
    FormatOidStep(ids, 5, "1.3.6.1.4", 1, "1");
    assert Itoa(n) == "14988";
    FormatOidStep(ids, 6, "1.3.6.1.4.1", n, "14988");
  }

  lemma InternetPrefixFormat(ids: ObjectIdentifier)
    requires |ids| >= 6 && ids[..6] == [1, 3, 6, 1, 4, 1]
    ensures FormatOid(ids[..4]) == "1.3.6.1"
  {
    FormatOidFirst(ids, 1, "1");
    FormatOidStep(ids, 1, "1", 3, "3");
    FormatOidStep(ids, 2, "1.3", 6, "6");
    FormatOidStep(ids, 3, "1.3.6", 1, "1");
  }

  lemma ScriptRunColumnFormat(ids: ObjectIdentifier)
    requires ids == ScriptRunColumnIds
    ensures FormatOid(ids[..13]) == ScriptRunColumn
  {
    ScriptRunColumnHead(ids);
    FormatOidStep(ids, 10, "1.3.6.1.4.1.14988.1.1.18", 1, "1");
    FormatOidStep(ids, 11, "1.3.6.1.4.1.14988.1.1.18.1", 1, "1");
    FormatOidStep(ids, 12, "1.3.6.1.4.1.14988.1.1.18.1.1", 2, "2");
  }

  lemma ScriptRunColumnHead(ids: ObjectIdentifier)
    requires ids == ScriptRunColumnIds
    ensures FormatOid(ids[..10]) == "1.3.6.1.4.1.14988.1.1.18"
  {
    MikrotikPrefixFormat(ids, 14988);
    FormatOidStep(ids, 7, "1.3.6.1.4.1.14988", 1, "1");
    FormatOidStep(ids, 8, "1.3.6.1.4.1.14988.1", 1, "1");
    FormatOidStep(ids, 9, "1.3.6.1.4.1.14988.1.1", 18, "18");
  }

  lemma ScriptNameColumnFormat(ids: ObjectIdentifier)
    requires ids == ScriptNameColumnIds
    ensures FormatOid(ids[..13]) == ScriptNameColumn
  {
    ScriptNameColumnHead(ids);
    FormatOidStep(ids, 10, "1.3.6.1.4.1.14988.1.1.8", 1, "1");
    FormatOidStep(ids, 11, "1.3.6.1.4.1.14988.1.1.8.1", 1, "1");
    FormatOidStep(ids, 12, "1.3.6.1.4.1.14988.1.1.8.1.1", 2, "2");
  }

  lemma ScriptNameColumnHead(ids: ObjectIdentifier)
    requires ids == ScriptNameColumnIds
    ensures FormatOid(ids[..10]) == "1.3.6.1.4.1.14988.1.1.8"
  {
    MikrotikPrefixFormat(ids, 14988);
    FormatOidStep(ids, 7, "1.3.6.1.4.1.14988", 1, "1");
    FormatOidStep(ids, 8, "1.3.6.1.4.1.14988.1", 1, "1");
    FormatOidStep(ids, 9, "1.3.6.1.4.1.14988.1.1", 8, "8");
  }

  /** A column's dotted form followed by ".<k>" parses to the column's identifier and then k. */
  lemma ColumnEntryParses(column: string, ids: ObjectIdentifier, k: int)
    requires |ids| >= 1 && FormatOid(ids) == column
    ensures ParseOid(column + "." + Itoa(k)) == Some(ids + [k])
  {
    FormatOidSnoc(ids, k);
    ParseFormat(ids + [k]);
  }

  /**
   The Get for the index a script button carries (the index printed in
   decimal) asks for the run column followed by that index: its last
   component is the script's index.
   */
  lemma TriggerSelectsScript(k: int)
    ensures ParseOid(TriggerOid(Itoa(k))) == Some(ScriptRunColumnIds + [k])
    ensures ScriptIndex(TriggerOid(Itoa(k))) == Some(k)
  {
    ScriptRunColumnFormat(ScriptRunColumnIds);
    assert ScriptRunColumnIds[..13] == ScriptRunColumnIds;
    ColumnEntryParses(ScriptRunColumn, ScriptRunColumnIds, k);
  }

  /**
   A walked script name, which the SNMP library reports with a leading dot as
   ".<name column>.<k>", is stored under index k.
   */
  lemma WalkedNameIndex(k: int)
    ensures ScriptIndex("." + ScriptNameColumn + "." + Itoa(k)) == Some(k)
  {
    ScriptNameColumnFormat(ScriptNameColumnIds);
    assert ScriptNameColumnIds[..13] == ScriptNameColumnIds;
    DottedEntryParses(ScriptNameColumn, ScriptNameColumnIds, k);
  }

  /** The same with the leading dot the walk reports. */
  lemma DottedEntryParses(column: string, ids: ObjectIdentifier, k: int)
    requires |ids| >= 1 && FormatOid(ids) == column
    ensures ParseOid("." + column + "." + Itoa(k)) == Some(ids + [k])
  {
    ColumnEntryParses(column, ids, k);
    LeadingDotEntry(column, Itoa(k), ids + [k]);
  }

  lemma LeadingDotEntry(column: string, index: string, ids: ObjectIdentifier)
    requires ParseOid(column + "." + index) == Some(ids)
    ensures ParseOid("." + column + "." + index) == Some(ids)
  {
    var name := column + "." + index;
    ParseOidIgnoresLeadingDot(name);
    assert "." + column + "." + index == "." + name;
  }

  // ---------------------------------------------------------------------------
  // The handler
  // ---------------------------------------------------------------------------

  /** The requests of a full run, in the order they are issued. */
  function Plan(config: Config, req: Request): seq<Op>
  {
    [Connect(Session(config, req.password)), Walk(ScriptNameColumn), Get([TriggerOid(req.execute)])]
  }

  /** Connect answered, every walked name parsed and the walk itself succeeded. */
  predicate WalkSucceeded(device: Device)
  {
    device.connect.Ok? && CollectScripts(device.walk.delivered).Scripts? && device.walk.status.Ok?
  }

  /** The text of the first variable returned, or "" when there is none. */
  function FirstValue(values: seq<string>): string
  {
    if |values| > 0 then values[0] else ""
  }

  method HandlerErr(config: Config, req: Request, device: Device) returns (ops: seq<Op>, outcome: Outcome)
    // Nothing is issued without a password; the page then shows no scripts and no result.
    ensures req.password == "" ==> ops == [] && outcome == Rendered("", map[], "")
    // What is issued is a prefix of Connect, Walk, Get, in that order.
    ensures ops <= Plan(config, req)
    ensures |ops| >= 1 <==> req.password != ""
    ensures |ops| >= 2 <==> req.password != "" && device.connect.Ok?
    ensures |ops| == 3 <==> req.password != "" && WalkSucceeded(device) && req.execute != ""
    // At most one Get, the last request, on the run column followed by `execute`.
    ensures forall i :: 0 <= i < |ops| && ops[i].Get? ==> i == |ops| - 1 && ops[i].oids == [TriggerOid(req.execute)]
    // The first failure ends the request.
    ensures req.password != "" && device.connect.Err? ==> outcome == Failed(device.connect.error)
    ensures req.password != "" && device.connect.Ok? && CollectScripts(device.walk.delivered).IndexOutOfRange? ==>
              outcome == Panicked(CollectScripts(device.walk.delivered).name)
    ensures (req.password != "" && device.connect.Ok? && CollectScripts(device.walk.delivered).Scripts? &&
             device.walk.status.Err?) ==> outcome == Failed(device.walk.status.error)
    ensures req.password != "" && WalkSucceeded(device) && req.execute != "" && device.get.Err? ==>
              outcome == Failed(device.get.error)
    // A rendered page after a login shows the walked map and, if a script ran, its first value.
    ensures req.password != "" && outcome.Rendered? ==>
              WalkSucceeded(device) &&
              outcome == Rendered(req.password, CollectScripts(device.walk.delivered).table,
                                  if req.execute != "" then FirstValue(device.get.value) else "")
    ensures req.password != "" && WalkSucceeded(device) && (req.execute == "" || device.get.Ok?) ==> outcome.Rendered?
  {
    ops := [];
    var scripts: map<int, string> := map[];
    var result := "";
    if req.password != "" {
      ops := ops + [Connect(Session(config, req.password))];
      if device.connect.Err? {
        return ops, Failed(device.connect.error);
      }
      ops := ops + [Walk(ScriptNameColumn)];
      var walked := WalkScripts(device.walk.delivered);
      if walked.IndexOutOfRange? {
        return ops, Panicked(walked.name);
      }
      scripts := walked.table;
      if device.walk.status.Err? {
        return ops, Failed(device.walk.status.error);
      }
      if req.execute != "" {
        ops := ops + [Get([TriggerOid(req.execute)])];
        if device.get.Err? {
          return ops, Failed(device.get.error);
        }
        if |device.get.value| > 0 {
          result := device.get.value[0];
        }
      }
    }
    outcome := Rendered(req.password, scripts, result);
  }
}
