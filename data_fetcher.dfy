/** The data fetcher: a table mapping local node ids to the ids of a remote
    server's nodes, the poll that reads the remote nodes and hands each value
    to the local node mapped to it, and the start/stop state of the polling
    loop. The timer, the task and the console output are not part of this
    model; one poll is one call, with the remote server's answer as input. */
module Fetcher {
  import opened Wrappers
  import opened Values
  import opened Seqs
  import Simulation
  import opened OpcUaClient

  /** One `DataReceived(localNodeId, value)` notification. */
  datatype Received = Received(localNodeId: string, value: Value)

  // ---------------------------------------------------------------------
  // The mapping table
  // ---------------------------------------------------------------------

  /** Setting a mapping adds a key only when it is new. */
  lemma {:induction false} MappingCountAfterAdd(m: map<string, string>, local: string, remote: string)
    ensures |m[local := remote]| == if local in m then |m| else |m| + 1
  {
    assert m[local := remote].Keys == m.Keys + {local};
    if local !in m {
      assert |m.Keys + {local}| == |m.Keys| + 1;
    } else {
      assert m.Keys + {local} == m.Keys;
    }
  }

  /** Removing a mapping drops a key only when it was there. */
  lemma {:induction false} MappingCountAfterRemove(m: map<string, string>, local: string)
    ensures |m - {local}| == if local in m then |m| - 1 else |m|
  {
    assert (m - {local}).Keys == m.Keys - {local};
    if local in m {
      assert |m.Keys - {local}| == |m.Keys| - 1;
    } else {
      assert m.Keys - {local} == m.Keys;
    }
  }

  /** Removing a key that is not mapped changes nothing, and removing a key
      leaves every other mapping as it was. */
  lemma RemoveMappingSpec(m: map<string, string>, local: string)
    ensures local !in m ==> m - {local} == m
    ensures local !in m - {local}
    ensures forall k :: k in m && k != local ==> k in m - {local} && (m - {local})[k] == m[k]
  {
  }

  /** Adding a mapping then removing it restores a table that did not have it. */
  lemma AddThenRemove(m: map<string, string>, local: string, remote: string)
    requires local !in m
    ensures m[local := remote] - {local} == m
  {
  }

  // ---------------------------------------------------------------------
  // One poll
  // ---------------------------------------------------------------------

  /** The remote ids in the enumeration order of the table (`_nodeMappings.Values`). */
  function RemoteIds(order: seq<string>, m: map<string, string>): (ids: seq<string>)
    requires forall i :: 0 <= i < |order| ==> order[i] in m
    ensures |ids| == |order| && forall i :: 0 <= i < |order| ==> ids[i] == m[order[i]]
  {
    seq(|order|, i requires 0 <= i < |order| => m[order[i]])
  }

  /** The first local id, in enumeration order, mapped to `remote`. */
  function FirstMapped(order: seq<string>, m: map<string, string>, remote: string): Option<string> {
    if order == [] then None
    else if order[0] in m && m[order[0]] == remote then Some(order[0])
    else FirstMapped(order[1..], m, remote)
  }

  /** The search finds a local id mapped to `remote` and none before it, or
      reports that no local id in the order is mapped to it. */
  lemma {:induction false} FirstMappedSpec(order: seq<string>, m: map<string, string>, remote: string)
    ensures FirstMapped(order, m, remote).None? <==>
              forall i :: 0 <= i < |order| && order[i] in m ==> m[order[i]] != remote
    ensures FirstMapped(order, m, remote).Some? ==>
              exists i :: 0 <= i < |order| && order[i] == FirstMapped(order, m, remote).value
                          && order[i] in m && m[order[i]] == remote
                          && forall j :: 0 <= j < i && order[j] in m ==> m[order[j]] != remote
  {
    if order != [] {
      FirstMappedSpec(order[1..], m, remote);
      if !(order[0] in m && m[order[0]] == remote) {
        if FirstMapped(order[1..], m, remote).Some? {
          var i :| 0 <= i < |order[1..]| && order[1..][i] == FirstMapped(order[1..], m, remote).value
                   && order[1..][i] in m && m[order[1..][i]] == remote
                   && forall j :: 0 <= j < i && order[1..][j] in m ==> m[order[1..][j]] != remote;
          assert order[i + 1] == order[1..][i];
          forall j | 0 <= j < i + 1 && order[j] in m
            ensures m[order[j]] != remote
          {
            if j > 0 {
              assert order[j] == order[1..][j - 1];
            }
          }
        } else {
          forall i | 0 <= i < |order| && order[i] in m
            ensures m[order[i]] != remote
          {
            if i > 0 {
              assert order[i] == order[1..][i - 1];
            }
          }
        }
      }
    }
  }

  /** Over a full enumeration of the table: nothing is found exactly when no
      local id maps to `remote`. */
  lemma FirstMappedOfTable(order: seq<string>, m: map<string, string>, remote: string)
    requires Enumerates(order, m)
    ensures FirstMapped(order, m, remote).None? <==> forall k :: k in m ==> m[k] != remote
    ensures FirstMapped(order, m, remote).Some? ==>
              FirstMapped(order, m, remote).value in m && m[FirstMapped(order, m, remote).value] == remote
  {
    FirstMappedSpec(order, m, remote);
    if FirstMapped(order, m, remote).None? {
      forall k | k in m
        ensures m[k] != remote
      {
        var i :| 0 <= i < |order| && order[i] == k;
      }
    }
  }

  /** What one read result hands on: the value (0.0 when there is none) to
      the first local id mapped to its node id, if any. */
  function DeliveryOf(order: seq<string>, m: map<string, string>, d: NodeData): Option<Received> {
    match FirstMapped(order, m, d.nodeId)
    case None => None
    case Some(local) => Some(Received(local, d.value.GetOr(Double(0.0))))
  }

  /** The notifications of a poll: at most one per read result, in order. */
  function Deliveries(order: seq<string>, m: map<string, string>, data: seq<NodeData>): (r: seq<Received>)
    ensures |r| <= |data|
  {
    if data == [] then []
    else Deliveries(order, m, data[..|data| - 1])
         + (match DeliveryOf(order, m, data[|data| - 1]) case Some(e) => [e] case None => [])
  }

  /** One more read result: the step the poll's loop takes. */
  lemma DeliveriesStep(order: seq<string>, m: map<string, string>, data: seq<NodeData>, i: int)
    requires 0 <= i < |data|
    ensures Deliveries(order, m, data[..i + 1]) == Deliveries(order, m, data[..i])
              + (match DeliveryOf(order, m, data[i]) case Some(e) => [e] case None => [])
  {
    assert data[..i + 1][..i] == data[..i];
  }

  /** Every notification goes to a local id mapped to the node a read result
      came from, with that result's value or 0.0 ... */
  lemma {:induction false} DeliveriesSound(order: seq<string>, m: map<string, string>, data: seq<NodeData>, e: Received)
    requires Enumerates(order, m) && e in Deliveries(order, m, data)
    ensures exists i :: 0 <= i < |data| && e.localNodeId in m && m[e.localNodeId] == data[i].nodeId
                        && e.value == data[i].value.GetOr(Double(0.0))
  {
    var init := data[..|data| - 1];
    var last := data[|data| - 1];
    if e in Deliveries(order, m, init) {
      DeliveriesSound(order, m, init, e);
      var i :| 0 <= i < |init| && e.localNodeId in m && m[e.localNodeId] == init[i].nodeId
               && e.value == init[i].value.GetOr(Double(0.0));
      assert data[i] == init[i];
    } else {
      FirstMappedOfTable(order, m, last.nodeId);
    }
  }

  /** ... and every result whose node some local id maps to is handed on. */
  lemma {:induction false} DeliveriesComplete(order: seq<string>, m: map<string, string>, data: seq<NodeData>,
                                             i: int, local: string)
    requires Enumerates(order, m) && 0 <= i < |data| && local in m && m[local] == data[i].nodeId
    ensures DeliveryOf(order, m, data[i]).Some? && DeliveryOf(order, m, data[i]).value in Deliveries(order, m, data)
  {
    FirstMappedOfTable(order, m, data[i].nodeId);
    var init := data[..|data| - 1];
    if i < |init| {
      assert init[i] == data[i];
      DeliveriesComplete(order, m, init, i, local);
    }
  }

  /** The fetcher: the mapping table, the client it reads with, the
      notifications it has fired, and the polling loop's state. */
  class DataFetcher {
    const client: OPCUAClient
    var mappings: map<string, string>
    var received: seq<Received>
    var current: bool
    var running: nat

    /** At most one polling loop runs, and it is the current one. */
    predicate Valid()
      reads this
    {
      running == if current then 1 else 0
    }

    constructor (typeName: Value -> string)
      ensures fresh(client) && !client.connected && client.typeName == typeName
      ensures mappings == map[] && received == [] && !current && running == 0 && Valid()
    {
      client := new OPCUAClient(typeName);
      mappings := map[];
      received := [];
      current := false;
      running := 0;
    }

    /** `ConnectToServerAsync`: the client's connection attempt. */
    method ConnectToServer(endpointUrl: string, session: Option<bool>) returns (ok: bool)
      modifies client`connected, client`endpoint
      ensures client.endpoint == Some(NormalizeEndpoint(endpointUrl))
      ensures session.None? ==> !ok && client.connected == old(client.connected)
      ensures session.Some? ==> ok == session.value && client.connected == session.value
    {
      ok := client.Connect(endpointUrl, session);
    }

    /** `Disconnect`: stop polling, then drop the session. */
    method Disconnect()
      requires Valid()
      modifies this`current, this`running, client`connected
      ensures !current && running == 0 && !client.connected && Valid()
    {
      StopFetching();
      client.Disconnect();
    }

    /** `AddNodeMapping`: sets or replaces the remote id of `local`. */
    method AddNodeMapping(local: string, remote: string)
      modifies this`mappings
      ensures mappings == old(mappings)[local := remote]
    {
      mappings := mappings[local := remote];
    }

    /** `RemoveNodeMapping`: drops `local`, if it is there. */
    method RemoveNodeMapping(local: string)
      modifies this`mappings
      ensures mappings == old(mappings) - {local}
    {
      mappings := mappings - {local};
    }

    method GetMappingCount() returns (n: nat)
      ensures n == |mappings|
    {
      n := |mappings|;
    }

    /** `GetNodeMappings`: a copy of the table; a map is a value, so nothing
        done to the copy reaches the table. */
    method GetNodeMappings() returns (copy: map<string, string>)
      ensures copy == mappings
    {
      copy := mappings;
    }

    /** `StopFetching`: cancel the current loop, if any, and clear the
        token and the task, whatever the cancellation raised. */
    method StopFetching()
      requires Valid()
      modifies this`current, this`running
      ensures Simulation.LoopState(current, running) == Simulation.Stopped(old(Simulation.LoopState(current, running)))
      ensures !current && running == 0 && Valid()
    {
      if current {
        running := running - 1;
      }
      current := false;
    }

    /** `StartFetching`: stop first, then start a new loop; so a restart
        never leaves two loops running. */
    method StartFetching()
      requires Valid()
      modifies this`current, this`running
      ensures Simulation.LoopState(current, running)
              == Simulation.Started(Simulation.Stopped(old(Simulation.LoopState(current, running))))
      ensures current && running == 1 && Valid()
    {
      StopFetching();
      current := true;
      running := running + 1;
    }

    /** `FetchDataAsync`: with no mappings, nothing; otherwise read the
        remote ids of the table (`response` is the server's answer) and,
        for each value read, notify the first local id mapped to it. */
    method FetchData(order: seq<string>, response: Option<seq<ReadResult>>)
      requires forall i :: 0 <= i < |order| ==> order[i] in mappings
      modifies this`received
      ensures |mappings| == 0 ==> received == old(received)
      ensures |mappings| > 0 ==>
                received == old(received)
                            + Deliveries(order, mappings,
                                         ReadAnswer(client.connected, RemoteIds(order, mappings), response, client.typeName))
    {
      if |mappings| == 0 {
        return;
      }
      var remote := RemoteIds(order, mappings);
      var nodeData := client.ReadNodeValues(remote, response);
      var i := 0;
      while i < |nodeData|
        invariant 0 <= i <= |nodeData|
        invariant received == old(received) + Deliveries(order, mappings, nodeData[..i])
      {
        var data := nodeData[i];
        DeliveriesStep(order, mappings, nodeData, i);
        var local := FirstLocal(order, data.nodeId);
        if local.Some? {
          received := received + [Received(local.value, data.value.GetOr(Double(0.0)))];
        }
        i := i + 1;
      }
      assert nodeData[..i] == nodeData;
    }

    /** The inner `foreach` of a poll: the mappings in enumeration order,
        left at the first whose remote id is `remote`. */
    method FirstLocal(order: seq<string>, remote: string) returns (local: Option<string>)
      requires forall i :: 0 <= i < |order| ==> order[i] in mappings
      ensures local == FirstMapped(order, mappings, remote)
    {
      local := None;
      var j := 0;
      while j < |order|
        invariant 0 <= j <= |order|
        invariant FirstMapped(order, mappings, remote) == FirstMapped(order[j..], mappings, remote)
      {
        assert order[j..][1..] == order[j + 1..];
        if mappings[order[j]] == remote {
          local := Some(order[j]);
          break;
        }
        j := j + 1;
      }
      if j == |order| {
        assert order[j..] == [];
      }
    }

    /** `BrowseRemoteNodesAsync`: the client's browse. */
    method BrowseRemoteNodes(parentNodeId: Option<string>, browse: Option<string> -> Option<seq<BrowseResult>>)
      returns (results: seq<NodeData>)
      ensures var response := browse(BrowseStart(parentNodeId));
              && (!client.connected || response.None? ==> results == [])
              && (client.connected && response.Some? ==> results == FlatMap(response.value, EntriesOf))
    {
      results := client.BrowseNodes(parentNodeId, browse);
    }

    /** `WriteToRemoteNodeAsync`: the client's write. */
    method WriteToRemoteNode(nodeId: string, value: Value, status: Option<bool>) returns (ok: bool)
      ensures ok <==> client.connected && status == Some(true)
    {
      ok := client.WriteNodeValue(nodeId, value, status);
    }
  }

  /** With the stop in front, starting again from any valid state leaves
      exactly one loop running (the engine's `Start` leaks one instead). */
  lemma RestartKeepsOneLoop(s: Simulation.LoopState)
    requires s.running == if s.current then 1 else 0
    ensures Simulation.Started(Simulation.Stopped(s)) == Simulation.LoopState(true, 1)
  {
  }
}
