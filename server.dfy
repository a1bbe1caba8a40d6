/** The server object: where it keeps the tree, the override store, the
    simulation and the node manager, and the handlers that route simulated
    values, external writes and API writes and reads between them. Events
    are recorded in a log in the order they are raised. A failing store
    command (an exception the handlers catch) is the `dbOk == false` case. */
module Server {
  import opened Wrappers
  import opened Values
  import opened Models
  import opened NodeManager
  import Store
  import Simulation

  datatype ServerEvent =
    | ValueChanged(key: string, value: Value)
    | ExternalValueWritten(key: string, value: Value)

  /** The value a simulated update publishes: the stored override when its
      text parses as a number, otherwise the simulated value. */
  function Resolved(rows: map<string, string>, key: string, simulated: real,
                    parseNumber: string -> Option<real>): (v: Value)
    ensures v.Double?
    ensures key !in rows ==> v == Double(simulated)
  {
    if key in rows && parseNumber(rows[key]).Some? then Double(parseNumber(rows[key]).value)
    else Double(simulated)
  }

  /** Once a value whose text parses as `x` is stored for a key, every later
      simulated value for that key is published as `x`. */
  lemma OverrideWins(rows: map<string, string>, key: string, v: Value, formatDouble: real -> string,
                     parseNumber: string -> Option<real>, x: real, simulated: real)
    requires parseNumber(TextOf(v, formatDouble)) == Some(x)
    ensures Resolved(Store.Upserted(rows, key, Store.StoredText(Some(v), formatDouble)), key, simulated, parseNumber)
            == Double(x)
  {
  }

  /** Storing a value under one key leaves the resolution of every other key alone. */
  lemma OverrideIsPerKey(rows: map<string, string>, key: string, other: string, text: string,
                         parseNumber: string -> Option<real>, simulated: real)
    requires other != key
    ensures Resolved(Store.Upserted(rows, other, text), key, simulated, parseNumber)
            == Resolved(rows, key, simulated, parseNumber)
  {
  }

  /** A stored text that does not parse (the empty text an upsert of null
      leaves, say) lets the simulated value through. */
  lemma UnparsableOverrideIgnored(rows: map<string, string>, key: string,
                                  parseNumber: string -> Option<real>, simulated: real)
    requires key in rows && parseNumber(rows[key]).None?
    ensures Resolved(rows, key, simulated, parseNumber) == Double(simulated)
  {
  }

  class OPCUAServer {
    const store: Store.ValueStore
    const simulation: Simulation.SimulationEngine
    /** `double.TryParse(s, out d)`: the number styles and the current
        culture of the running thread, which this model does not fix. */
    const parseNumber: string -> Option<real>
    var manager: SimulatorNodeManager?
    var root: Option<Node>
    var events: seq<ServerEvent>

    constructor (store: Store.ValueStore, simulation: Simulation.SimulationEngine,
                 parseNumber: string -> Option<real>)
      ensures this.store == store && this.simulation == simulation && this.parseNumber == parseNumber
      ensures manager == null && root == None && events == []
    {
      this.store := store;
      this.simulation := simulation;
      this.parseNumber := parseNumber;
      manager := null;
      root := None;
      events := [];
    }

    /** The stack hands over the node manager it created. */
    method NodeManagerReady(m: SimulatorNodeManager)
      modifies this`manager
      ensures manager == m
    {
      manager := m;
    }

    /** `LoadNodes`: keep the tree, register its simulated variables and, when
        a node manager exists, rebuild its table from the tree. */
    method LoadNodes(r: Node, folderFound: bool)
      modifies this`root, simulation`values
      modifies if manager != null then {manager} else {}
      ensures root == Some(r)
      ensures simulation.values == Simulation.Registered(old(simulation.values), Preorder(r))
      ensures manager == old(manager)
      ensures manager != null && !folderFound ==> manager.variables == map[] && manager.drawn == old(manager.drawn)
      ensures manager != null && folderFound ==>
                Registry(manager.variables, manager.drawn)
                == Register(manager.stack, r, MtpFolderId, Registry(map[], old(manager.drawn)))
      ensures manager != null ==> manager.Valid()
    {
      root := Some(r);
      simulation.Initialize(r);
      if manager != null {
        manager.RefreshAddressSpace(root, folderFound);
      }
    }

    /** The `ValueUpdated` handler: publish the override or the simulated
        value under the raw key. */
    method OnSimulatedValue(key: string, v: real, dbOk: bool)
      requires manager != null
      modifies manager`variables, this`events
      ensures !dbOk ==> manager.variables == old(manager.variables) && events == old(events)
      ensures dbOk ==>
                var published := Resolved(store.rows, key, v, parseNumber);
                manager.variables == WithValue(old(manager.variables), key, published)
                && events == old(events) + [ValueChanged(key, published)]
    {
      if !dbOk {
        return;
      }
      var found, text := store.TryGet(key);
      var published := Double(v);
      if found && text.Some? && parseNumber(text.value).Some? {
        published := Double(parseNumber(text.value).value);
      }
      manager.UpdateValue(key, published);
      events := events + [ValueChanged(key, published)];
    }

    /** The `ExternalWrite` handler: store the value, then raise both events. */
    method OnExternalWrite(notice: ExternalWrite, dbOk: bool)
      modifies store`rows, this`events
      ensures !dbOk ==> store.rows == old(store.rows) && events == old(events)
      ensures dbOk ==>
                store.rows == Store.Upserted(old(store.rows), notice.key, Store.StoredText(Some(notice.value), store.formatDouble))
                && events == old(events) + [ValueChanged(notice.key, notice.value),
                                            ExternalValueWritten(notice.key, notice.value)]
    {
      if !dbOk {
        return;
      }
      store.Upsert(notice.key, Some(notice.value));
      events := events + [ValueChanged(notice.key, notice.value), ExternalValueWritten(notice.key, notice.value)];
    }

    /** An OPC UA client writes the variable filed under `key`. */
    method ClientWrite(key: string, v: Value, dbOk: bool)
      requires manager != null && manager.Valid() && key in manager.variables
      modifies manager`variables, store`rows, this`events
      ensures manager.Valid() && manager.variables == WithValue(old(manager.variables), key, v)
      ensures !dbOk ==> store.rows == old(store.rows) && events == old(events)
      ensures dbOk ==>
                store.rows == Store.Upserted(old(store.rows), key, Store.StoredText(Some(v), store.formatDouble))
                && events == old(events) + [ValueChanged(key, v), ExternalValueWritten(key, v)]
    {
      var notice := manager.OnSimpleWriteValue(key, v);
      OnExternalWrite(notice, dbOk);
    }

    /** `TryWriteValue`: false without a node manager; otherwise the value
        goes to the variable under the raw key, then to the store; a failing
        store makes it false after the variable has changed. */
    method TryWriteValue(key: string, v: Value, dbOk: bool) returns (ok: bool)
      modifies if manager != null then {manager} else {}
      modifies store`rows, this`events
      ensures manager == null ==> !ok && store.rows == old(store.rows) && events == old(events)
      ensures manager != null ==>
                manager.variables == WithValue(old(manager.variables), key, v) && manager.drawn == old(manager.drawn)
      ensures manager != null && !dbOk ==> !ok && store.rows == old(store.rows) && events == old(events)
      ensures manager != null && dbOk ==>
                ok && store.rows == Store.Upserted(old(store.rows), key, Store.StoredText(Some(v), store.formatDouble))
                && events == old(events) + [ValueChanged(key, v)]
    {
      if manager == null {
        return false;
      }
      manager.UpdateValue(key, v);
      if !dbOk {
        return false;
      }
      store.Upsert(key, Some(v));
      events := events + [ValueChanged(key, v)];
      ok := true;
    }

    /** `TryReadValue`: false without a node manager, else the keyed read. */
    method TryReadValue(nodeId: Option<string>) returns (ok: bool, value: Option<VariableValue>)
      ensures manager == null ==> !ok && value.None?
      ensures manager != null ==> (ok <==> OpcUaServer.NormalizeKey(nodeId) in manager.variables)
      ensures manager != null && ok ==> value == Some(manager.variables[OpcUaServer.NormalizeKey(nodeId)].value)
      ensures !ok ==> value.None?
    {
      if manager == null {
        return false, None;
      }
      ok, value := manager.TryGetValue(nodeId);
    }
  }
}
