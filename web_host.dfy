/** The web host: the variable snapshot the UI lists, the provider that
    serves it, and what the write and upload endpoints answer and
    broadcast. Kestrel, CORS, the SignalR wiring and the temporary file's
    I/O are not part of this model; the hub is a log of broadcast messages. */
module Web {
  import opened Wrappers
  import opened Values
  import opened Seqs
  import opened Models
  import opened Xml
  import Parser
  import Simulation
  import NodeManager
  import Server
  import Store

  /** The snapshot entry of a Variable node: id `NodeId ?? DisplayName`,
      type `DataType ?? ""`, no value, Access and Description copied. */
  function EntryOf(n: Node): Option<VariableInfo> {
    if n.nodeClass == "Variable" then
      Some(VariableInfo(n.nodeId.GetOr(n.displayName), n.displayName, n.dataType.GetOr(""), None, n.access, n.description))
    else None
  }

  /** The snapshot of a tree: one entry per Variable, in preorder, the
      children of Variables included. */
  function SnapshotOf(root: Node): seq<VariableInfo> {
    FilterMap(Preorder(root), EntryOf)
  }

  /** Every snapshot entry is the entry of a Variable of the tree ... */
  lemma SnapshotSound(root: Node, e: VariableInfo)
    requires e in SnapshotOf(root)
    ensures exists n :: n in Preorder(root) && n.nodeClass == "Variable" && EntryOf(n) == Some(e)
  {
    FilterMapSound(Preorder(root), EntryOf, e);
  }

  /** ... and every Variable of the tree, however deep, has its entry. */
  lemma SnapshotComplete(root: Node, n: Node)
    requires n in Preorder(root) && n.nodeClass == "Variable"
    ensures EntryOf(n).Some? && EntryOf(n).value in SnapshotOf(root)
  {
    var i :| 0 <= i < |Preorder(root)| && Preorder(root)[i] == n;
    FilterMapComplete(Preorder(root), EntryOf, i);
  }

  /** The UI's id of every simulated variable is a key the simulation
      registered for the same tree. */
  lemma SnapshotIdsAreSimulationKeys(values: map<string, real>, root: Node, n: Node)
    requires n in Preorder(root) && Simulation.IsSimulated(n)
    ensures EntryOf(n).value.nodeId in Simulation.Registered(values, Preorder(root))
  {
    var i :| 0 <= i < |Preorder(root)| && Preorder(root)[i] == n;
    Simulation.RegisteredSpec(values, Preorder(root), Simulation.SimulationKey(n));
  }

  /** The snapshot of a node: its own entry, then its children's. */
  lemma SnapshotOfNode(n: Node)
    ensures SnapshotOf(n) == (if n.nodeClass == "Variable" then [EntryOf(n).value] else [])
                             + ChildrenSnapshot(n.children)
  {
    FilterMapConcat([n], PreorderAll(n.children), EntryOf);
    assert [n][..0] == [];
  }

  /** The snapshot of a list of subtrees: the entries of their preorders. */
  function ChildrenSnapshot(cs: seq<Node>): seq<VariableInfo> {
    FilterMap(PreorderAll(cs), EntryOf)
  }

  /** One more child's subtree at the end of the children's preorder. */
  lemma SnapshotOfChildren(cs: seq<Node>, i: int)
    requires 0 <= i < |cs|
    ensures ChildrenSnapshot(cs[..i + 1]) == ChildrenSnapshot(cs[..i]) + SnapshotOf(cs[i])
  {
    assert cs[..i + 1][..i] == cs[..i];
    FilterMapConcat(PreorderAll(cs[..i]), Preorder(cs[i]), EntryOf);
  }

  /** `Walk(n)`: the node's own entry, then each child's walk, appended to `list`. */
  method Walk(n: Node, list: seq<VariableInfo>) returns (result: seq<VariableInfo>)
    ensures result == list + SnapshotOf(n)
    decreases n, 1
  {
    result := list;
    if n.nodeClass == "Variable" {
      result := result + [EntryOf(n).value];
    }
    result := WalkChildren(n.children, result);
    SnapshotOfNode(n);
  }

  /** The `foreach` over the children of one node. */
  method WalkChildren(cs: seq<Node>, list: seq<VariableInfo>) returns (result: seq<VariableInfo>)
    ensures result == list + ChildrenSnapshot(cs)
    decreases cs, 0
  {
    result := list;
    var i := 0;
    while i < |cs|
      invariant 0 <= i <= |cs|
      invariant result == list + ChildrenSnapshot(cs[..i])
    {
      result := Walk(cs[i], result);
      SnapshotOfChildren(cs, i);
      i := i + 1;
    }
    assert cs[..i] == cs;
  }

  method BuildSnapshot(root: Node) returns (list: seq<VariableInfo>)
    ensures list == SnapshotOf(root)
  {
    list := Walk(root, []);
  }

  /** `VariableSnapshotProvider`: what `/api/variables` serves. */
  class VariableSnapshotProvider {
    var snapshot: seq<VariableInfo>

    constructor ()
      ensures snapshot == []
    {
      snapshot := [];
    }

    /** The new list replaces the old one wholesale. */
    method Update(items: seq<VariableInfo>)
      modifies this`snapshot
      ensures snapshot == items
    {
      snapshot := items;
    }
  }

  /** A message the hub sends to every client. */
  datatype HubMessage =
    | ValueMessage(nodeId: string, value: Option<Value>)
    | VariablesMessage(items: seq<VariableInfo>)

  /** The uploaded form: whether it is multipart, and its first file, with
      that file read as an XML document and as a zip archive (the I/O behind
      `ParseFile`). */
  datatype UploadedFile = UploadedFile(fileName: string, length: nat,
                                       document: Option<Element>, archive: Option<seq<Parser.ArchiveEntry>>)
  datatype UploadRequest = UploadRequest(hasFormContentType: bool, file: Option<UploadedFile>)

  /** `Ok(new { success = true, count })`, `BadRequest(message)`, or the
      parser's exception escaping the handler. */
  datatype UploadResponse = Uploaded(count: nat) | BadRequest(message: string) | Failed(error: Parser.ParseError)

  class WebHost {
    const server: Server.OPCUAServer
    const provider: VariableSnapshotProvider
    var broadcasts: seq<HubMessage>

    constructor (server: Server.OPCUAServer, provider: VariableSnapshotProvider)
      ensures this.server == server && this.provider == provider && broadcasts == []
    {
      this.server := server;
      this.provider := provider;
      broadcasts := [];
    }

    /** `POST /api/write`: a missing value is written as the empty string;
        the request's own value is broadcast only when the write succeeded. */
    method PostWrite(nodeId: string, value: Option<Value>, dbOk: bool) returns (success: bool)
      modifies if server.manager != null then {server.manager} else {}
      modifies server.store`rows, server`events, this`broadcasts
      ensures success <==> server.manager != null && dbOk
      ensures server.manager != null ==>
                server.manager.variables == NodeManager.WithValue(old(server.manager.variables), nodeId, value.GetOr(Other("")))
      ensures server.manager != null ==> server.manager.drawn == old(server.manager.drawn)
      ensures success ==>
                && server.store.rows == Store.Upserted(old(server.store.rows), nodeId,
                                                       Store.StoredText(Some(value.GetOr(Other(""))), server.store.formatDouble))
                && server.events == old(server.events) + [Server.ValueChanged(nodeId, value.GetOr(Other("")))]
      ensures !success ==> server.store.rows == old(server.store.rows) && server.events == old(server.events)
      ensures success ==> broadcasts == old(broadcasts) + [ValueMessage(nodeId, value)]
      ensures !success ==> broadcasts == old(broadcasts)
    {
      success := server.TryWriteValue(nodeId, value.GetOr(Other("")), dbOk);
      if success {
        broadcasts := broadcasts + [ValueMessage(nodeId, value)];
      }
    }

    /** `POST /api/mtp/upload`: reject a request that is not a form or has
        no non-empty file; otherwise parse the file saved at `tempPath`
        (which has the upload's extension), load the tree into the server,
        publish its snapshot and answer with the snapshot's length. */
    method PostUpload(req: UploadRequest, tempPath: string, folderFound: bool) returns (resp: UploadResponse)
      requires req.file.Some? ==> Parser.GetExtension(tempPath) == Parser.GetExtension(req.file.value.fileName)
      modifies server`root, server.simulation`values
      modifies if server.manager != null then {server.manager} else {}
      modifies provider`snapshot, this`broadcasts
      ensures !req.hasFormContentType ==>
                resp == BadRequest("multipart/form-data expected") && broadcasts == old(broadcasts)
                && provider.snapshot == old(provider.snapshot) && server.root == old(server.root)
                && server.simulation.values == old(server.simulation.values)
                && (server.manager != null ==> server.manager.variables == old(server.manager.variables)
                                               && server.manager.drawn == old(server.manager.drawn))
      ensures req.hasFormContentType && (req.file.None? || req.file.value.length == 0) ==>
                resp == BadRequest("file missing") && broadcasts == old(broadcasts)
                && provider.snapshot == old(provider.snapshot) && server.root == old(server.root)
                && server.simulation.values == old(server.simulation.values)
                && (server.manager != null ==> server.manager.variables == old(server.manager.variables)
                                               && server.manager.drawn == old(server.manager.drawn))
      ensures req.hasFormContentType && req.file.Some? && req.file.value.length > 0 ==>
                var parsed := Parser.ParseFileSpec(tempPath, req.file.value.document, req.file.value.archive);
                && (parsed.Failure? ==>
                      resp == Failed(parsed.error) && broadcasts == old(broadcasts)
                      && provider.snapshot == old(provider.snapshot) && server.root == old(server.root)
                      && server.simulation.values == old(server.simulation.values)
                      && (server.manager != null ==> server.manager.variables == old(server.manager.variables)
                                                     && server.manager.drawn == old(server.manager.drawn)))
                && (parsed.Success? ==>
                      && server.root == Some(parsed.value)
                      && server.simulation.values == Simulation.Registered(old(server.simulation.values), Preorder(parsed.value))
                      && (server.manager != null && !folderFound ==>
                            server.manager.variables == map[] && server.manager.drawn == old(server.manager.drawn))
                      && (server.manager != null && folderFound ==>
                            NodeManager.Registry(server.manager.variables, server.manager.drawn)
                            == NodeManager.Register(server.manager.stack, parsed.value, NodeManager.MtpFolderId,
                                                    NodeManager.Registry(map[], old(server.manager.drawn))))
                      && (server.manager != null ==> server.manager.Valid())
                      && provider.snapshot == SnapshotOf(parsed.value)
                      && broadcasts == old(broadcasts) + [VariablesMessage(provider.snapshot)]
                      && resp == Uploaded(|provider.snapshot|))
    {
      if !req.hasFormContentType {
        return BadRequest("multipart/form-data expected");
      }
      if req.file.None? || req.file.value.length == 0 {
        return BadRequest("file missing");
      }
      var file := req.file.value;
      var parsed := Parser.ParseFile(tempPath, file.document, file.archive);
      if parsed.Failure? {
        return Failed(parsed.error);
      }
      var root := parsed.value;
      server.LoadNodes(root, folderFound);
      var snapshot := BuildSnapshot(root);
      provider.Update(snapshot);
      broadcasts := broadcasts + [VariablesMessage(snapshot)];
      resp := Uploaded(|snapshot|);
    }
  }
}
