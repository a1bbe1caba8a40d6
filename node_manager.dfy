/** The simulator's node manager: the variable table it builds from the
    descriptor tree (its key is the text of each variable's OPC UA NodeId),
    value updates, keyed reads and the write callback. The stack's node
    states, folders and references are not part of this model; a variable
    is a record, and of a folder only its NodeId text is kept, as the
    parent of the variables placed in it. */
module NodeManager {
  import opened Wrappers
  import opened Text
  import opened Values
  import opened Models
  import opened NodeIds
  import opened OpcUaServer

  /** The text of a string NodeId in the node manager's namespace, whose
      index is 2 (OPC 10000-6, section 5.3.1.10: `ns=<index>;s=<identifier>`). */
  function StringNodeId(id: string): (r: string)
    ensures IsNormalForm(r) && |r| == |id| + 7
  {
    var r := "ns=2;s=" + id;
    assert r[..3] == "ns=";
    r
  }

  /** The MTP folder every variable ends up in, directly or below a folder. */
  const MtpFolderId := StringNodeId("MTP")

  /** What the OPC UA stack and the runtime provide: `NodeId.Parse(text)`
      followed by `ToString()` (None when parsing throws), and the GUID
      text of the i-th fresh GUID the node manager draws. */
  datatype Stack = Stack(parseNodeId: string -> Option<string>, guid: nat -> string)

  /** A variable's value: its type's default, or a value written since. */
  datatype VariableValue = Initial(default: DefaultValue) | Current(value: Value)

  /** What the table keeps of a `BaseDataVariableState`. */
  datatype VariableRecord = VariableRecord(
    nodeId: string,
    browseName: string,
    displayName: string,
    parent: string,
    dataType: DataTypeId,
    accessLevel: byte,
    value: VariableValue)

  /** The table, and how many GUIDs have been drawn so far. */
  datatype Registry = Registry(variables: map<string, VariableRecord>, drawn: nat)

  /** Every record is filed under the text of its own NodeId. */
  predicate SelfKeyed(variables: map<string, VariableRecord>) {
    forall k :: k in variables ==> variables[k].nodeId == k
  }

  // ---------------------------------------------------------------------
  // Registration
  // ---------------------------------------------------------------------

  /** The NodeId of a variable when it does not need a GUID: a non-blank
      NodeId as the stack parses it, or, when it does not parse, as a string
      NodeId of the namespace; else the non-blank DisplayName, else the
      non-blank BrowseName, as a string NodeId. */
  function FixedId(stack: Stack, n: Node): Option<string> {
    if !IsNullOrWhiteSpace(n.nodeId) then
      match stack.parseNodeId(n.nodeId.value)
      case Some(text) => Some(text)
      case None => Some(StringNodeId(n.nodeId.value))
    else if !IsBlank(n.displayName) then Some(StringNodeId(n.displayName))
    else if !IsBlank(n.browseName) then Some(StringNodeId(n.browseName))
    else None
  }

  /** The NodeId text of a variable registered after `drawn` GUIDs. */
  function VariableId(stack: Stack, n: Node, drawn: nat): string {
    FixedId(stack, n).GetOr(StringNodeId(stack.guid(drawn)))
  }

  /** How many GUIDs registering `n` draws. */
  function Draws(stack: Stack, n: Node): nat {
    if FixedId(stack, n).None? then 1 else 0
  }

  /** The variable state made for `n`: each name falls back on the other,
      and data type, access level and initial value come from its
      descriptor's DataType and Access. */
  function RecordOf(n: Node, parent: string, id: string): (r: VariableRecord)
    ensures r.nodeId == id && r.parent == parent
    ensures !IsBlank(n.browseName) ==> r.browseName == n.browseName
    ensures IsBlank(n.browseName) ==> r.browseName == n.displayName
    ensures !IsBlank(n.displayName) ==> r.displayName == n.displayName
    ensures IsBlank(n.displayName) ==> r.displayName == n.browseName
  {
    VariableRecord(
      id,
      if !IsBlank(n.browseName) then n.browseName else n.displayName,
      if !IsBlank(n.displayName) then n.displayName else n.browseName,
      parent,
      GetDataTypeId(n.dataType),
      MapAccess(n.access),
      Initial(GetDefaultValue(n.dataType)))
  }

  /** Each of the record's names is one of the node's two names, and both
      are non-blank as soon as either of the node's names is. */
  lemma RecordOfNames(n: Node, parent: string, id: string)
    ensures var r := RecordOf(n, parent, id);
            && (r.browseName == n.browseName || r.browseName == n.displayName)
            && (r.displayName == n.browseName || r.displayName == n.displayName)
            && (!IsBlank(n.browseName) || !IsBlank(n.displayName) ==> !IsBlank(r.browseName) && !IsBlank(r.displayName))
  {
  }

  /** A variable together with the folder it is placed in. */
  datatype Placed = Placed(node: Node, parent: string)

  /** Registering one variable: its record goes under its id, replacing any
      earlier record with that id. */
  function Insert(stack: Stack, p: Placed, reg: Registry): Registry {
    var id := VariableId(stack, p.node, reg.drawn);
    Registry(reg.variables[id := RecordOf(p.node, p.parent, id)], reg.drawn + Draws(stack, p.node))
  }

  /** Registering variables one after another. */
  function InsertAll(stack: Stack, ps: seq<Placed>, reg: Registry): Registry {
    if ps == [] then reg else InsertAll(stack, ps[1..], Insert(stack, ps[0], reg))
  }

  /** A folder named "MTP" by its BrowseName. */
  predicate IsMtpFolder(n: Node) {
    n.nodeClass == "Folder" && n.browseName == "MTP"
  }

  /** Where the children of a container that is not an MTP folder go: a
      Folder with a non-empty DisplayName gets a folder of its own, whose
      NodeId is its BrowseName; any other container is transparent. */
  function FolderParent(n: Node, parent: string): string {
    if n.nodeClass == "Folder" && n.displayName != "" then StringNodeId(n.browseName) else parent
  }

  /** `AddNodesFromMtp` on values: MTP folders are flattened, a Variable is
      registered without visiting its children, and every other node's
      children are registered in list order. */
  function Register(stack: Stack, n: Node, parent: string, reg: Registry): Registry
    decreases n, 1
  {
    if IsMtpFolder(n) then RegisterAll(stack, n.children, parent, reg)
    else if n.nodeClass == "Variable" then Insert(stack, Placed(n, parent), reg)
    else RegisterAll(stack, n.children, FolderParent(n, parent), reg)
  }

  function RegisterAll(stack: Stack, cs: seq<Node>, parent: string, reg: Registry): Registry
    decreases cs, 0
  {
    if cs == [] then reg else RegisterAll(stack, cs[1..], parent, Register(stack, cs[0], parent, reg))
  }

  /** The variables the walk reaches, each with its folder, in the order it
      registers them. */
  function Reached(n: Node, parent: string): seq<Placed>
    decreases n, 1
  {
    if IsMtpFolder(n) then ReachedAll(n.children, parent)
    else if n.nodeClass == "Variable" then [Placed(n, parent)]
    else ReachedAll(n.children, FolderParent(n, parent))
  }

  function ReachedAll(cs: seq<Node>, parent: string): seq<Placed>
    decreases cs, 0
  {
    if cs == [] then [] else Reached(cs[0], parent) + ReachedAll(cs[1..], parent)
  }

  lemma {:induction false} InsertAllConcat(stack: Stack, a: seq<Placed>, b: seq<Placed>, reg: Registry)
    ensures InsertAll(stack, a + b, reg) == InsertAll(stack, b, InsertAll(stack, a, reg))
  {
    if a != [] {
      assert (a + b)[1..] == a[1..] + b;
      InsertAllConcat(stack, a[1..], b, Insert(stack, a[0], reg));
    } else {
      assert a + b == b;
    }
  }

  /** The recursive walk registers exactly the reached variables, in order. */
  lemma {:induction false} RegisterIsInsertAll(stack: Stack, n: Node, parent: string, reg: Registry)
    ensures Register(stack, n, parent, reg) == InsertAll(stack, Reached(n, parent), reg)
    decreases n, 1
  {
    if IsMtpFolder(n) {
      RegisterAllIsInsertAll(stack, n.children, parent, reg);
    } else if n.nodeClass == "Variable" {
      assert [Placed(n, parent)][1..] == [];
    } else {
      RegisterAllIsInsertAll(stack, n.children, FolderParent(n, parent), reg);
    }
  }

  lemma {:induction false} RegisterAllIsInsertAll(stack: Stack, cs: seq<Node>, parent: string, reg: Registry)
    ensures RegisterAll(stack, cs, parent, reg) == InsertAll(stack, ReachedAll(cs, parent), reg)
    decreases cs, 0
  {
    if cs != [] {
      RegisterIsInsertAll(stack, cs[0], parent, reg);
      RegisterAllIsInsertAll(stack, cs[1..], parent, Register(stack, cs[0], parent, reg));
      InsertAllConcat(stack, Reached(cs[0], parent), ReachedAll(cs[1..], parent), reg);
    }
  }

  /** Every reached node is a Variable of the tree. */
  lemma {:induction false} ReachedAreVariables(n: Node, parent: string, p: Placed)
    requires p in Reached(n, parent)
    ensures p.node.nodeClass == "Variable" && p.node in Preorder(n)
    decreases n, 1
  {
    PreorderMembers(n, p.node);
    if IsMtpFolder(n) {
      ReachedAllAreVariables(n.children, parent, p);
    } else if n.nodeClass != "Variable" {
      ReachedAllAreVariables(n.children, FolderParent(n, parent), p);
    }
  }

  lemma {:induction false} ReachedAllAreVariables(cs: seq<Node>, parent: string, p: Placed)
    requires p in ReachedAll(cs, parent)
    ensures p.node.nodeClass == "Variable" && exists c :: c in cs && p.node in Preorder(c)
    decreases cs, 0
  {
    if p in Reached(cs[0], parent) {
      ReachedAreVariables(cs[0], parent, p);
    } else {
      ReachedAllAreVariables(cs[1..], parent, p);
      var c :| c in cs[1..] && p.node in Preorder(c);
      assert c in cs;
    }
  }

  /** A flat list of Variables (the parser's output under its MTP root) is
      placed, in order, directly in the given folder. */
  lemma {:induction false} ReachedFlat(cs: seq<Node>, parent: string)
    requires forall i :: 0 <= i < |cs| ==> cs[i].nodeClass == "Variable"
    ensures ReachedAll(cs, parent) == seq(|cs|, i requires 0 <= i < |cs| => Placed(cs[i], parent))
  {
    if cs != [] {
      ReachedFlat(cs[1..], parent);
    }
  }

  /** The ids `InsertAll` files its records under, in order. */
  function IdsOf(stack: Stack, ps: seq<Placed>, drawn: nat): (ids: seq<string>)
    ensures |ids| == |ps|
  {
    if ps == [] then []
    else [VariableId(stack, ps[0].node, drawn)] + IdsOf(stack, ps[1..], drawn + Draws(stack, ps[0].node))
  }

  /** The table after registration holds the earlier keys and the ids of
      the registered variables, and nothing else. */
  lemma {:induction false} InsertAllKeys(stack: Stack, ps: seq<Placed>, reg: Registry, k: string)
    ensures k in InsertAll(stack, ps, reg).variables <==> k in reg.variables || k in IdsOf(stack, ps, reg.drawn)
  {
    if ps != [] {
      var next := Insert(stack, ps[0], reg);
      var id := VariableId(stack, ps[0].node, reg.drawn);
      var rest := IdsOf(stack, ps[1..], next.drawn);
      assert IdsOf(stack, ps, reg.drawn) == [id] + rest;
      assert k in [id] + rest <==> k == id || k in rest;
      assert k in next.variables <==> k in reg.variables || k == id;
      InsertAllKeys(stack, ps[1..], next, k);
    }
  }

  /** Registration keeps every record under its own NodeId. */
  lemma {:induction false} InsertAllSelfKeyed(stack: Stack, ps: seq<Placed>, reg: Registry)
    requires SelfKeyed(reg.variables)
    ensures SelfKeyed(InsertAll(stack, ps, reg).variables)
  {
    if ps != [] {
      InsertAllSelfKeyed(stack, ps[1..], Insert(stack, ps[0], reg));
    }
  }

  /** A variable whose NodeId, DisplayName or BrowseName is not blank is
      in the table after registration, under that id. */
  lemma {:induction false} FixedIdRegistered(stack: Stack, ps: seq<Placed>, reg: Registry, i: int)
    requires 0 <= i < |ps| && FixedId(stack, ps[i].node).Some?
    ensures FixedId(stack, ps[i].node).value in InsertAll(stack, ps, reg).variables
  {
    var ids := IdsOf(stack, ps, reg.drawn);
    IdAt(stack, ps, reg.drawn, i);
    assert ids[i] in ids;
    InsertAllKeys(stack, ps, reg, ids[i]);
  }

  lemma {:induction false} IdAt(stack: Stack, ps: seq<Placed>, drawn: nat, i: int)
    requires 0 <= i < |ps| && FixedId(stack, ps[i].node).Some?
    ensures IdsOf(stack, ps, drawn)[i] == FixedId(stack, ps[i].node).value
  {
    if i > 0 {
      IdAt(stack, ps[1..], drawn + Draws(stack, ps[0].node), i - 1);
    }
  }

  /** The simulation's key for a variable is its raw NodeId (`R0001`); the
      table files it under the parsed NodeId text, or under `ns=2;s=R0001`
      when it does not parse, so the raw id is not a key unless parsing
      gives it back unchanged. */
  lemma RawIdIsNotAKey(stack: Stack, n: Node, parent: string, drawn: nat, raw: string)
    requires n.nodeClass == "Variable" && n.nodeId == Some(raw) && !IsBlank(raw)
    requires stack.parseNodeId(raw) != Some(raw)
    ensures raw !in Register(stack, n, parent, Registry(map[], drawn)).variables
  {
  }

  /** A keyed read with that raw id does find the variable when the id is
      a trimmed token the stack does not parse. */
  lemma RawIdIsReadable(stack: Stack, n: Node, parent: string, drawn: nat, raw: string)
    requires n.nodeClass == "Variable" && n.nodeId == Some(raw) && !IsBlank(raw)
    requires stack.parseNodeId(raw) == None && Trimmed(raw, DotNetSpace)
    requires MatchNsForm(DotNetRegex, raw).None? && !IsNormalForm(raw)
    ensures NormalizeKey(Some(raw)) in Register(stack, n, parent, Registry(map[], drawn)).variables
  {
    TrimWithUnchanged(raw, DotNetSpace);
    NormalizeKeyOfBareId(Some(raw));
  }

  // ---------------------------------------------------------------------
  // Values
  // ---------------------------------------------------------------------

  /** The table after `UpdateValue(key, v)`: only an existing key's value
      changes; an unknown key changes nothing. */
  function WithValue(variables: map<string, VariableRecord>, key: string, v: Value): (r: map<string, VariableRecord>)
    ensures r.Keys == variables.Keys
    ensures key !in variables ==> r == variables
    ensures key in variables ==> r[key] == variables[key].(value := Current(v))
    ensures forall k :: k in variables && k != key ==> r[k] == variables[k]
  {
    if key in variables then variables[key := variables[key].(value := Current(v))] else variables
  }

  /** Updating values keeps every record under its own NodeId. */
  lemma WithValueSelfKeyed(variables: map<string, VariableRecord>, key: string, v: Value)
    requires SelfKeyed(variables)
    ensures SelfKeyed(WithValue(variables, key, v))
  {
  }

  /** A value written under the key of some id is what a keyed read of
      that key gives back: normalising the key again finds it. */
  lemma WriteThenRead(variables: map<string, VariableRecord>, id: Option<string>, v: Value)
    requires NormalizeKey(id) in variables
    ensures var after := WithValue(variables, NormalizeKey(id), v);
            NormalizeKey(Some(NormalizeKey(id))) in after
            && after[NormalizeKey(Some(NormalizeKey(id)))].value == Current(v)
  {
    NormalizeKeyIdempotent(id);
  }

  /** The notice `ExternalWrite` raises: the variable's NodeId text and the value. */
  datatype ExternalWrite = ExternalWrite(key: string, value: Value)

  class SimulatorNodeManager {
    const stack: Stack
    var variables: map<string, VariableRecord>
    var drawn: nat

    predicate Valid()
      reads this
    {
      SelfKeyed(variables)
    }

    /** `CreateAddressSpace`: the MTP folder, and the tree's variables in it
        when a tree is loaded (otherwise a status node that is not in the table). */
    constructor (stack: Stack, root: Option<Node>)
      ensures this.stack == stack && Valid()
      ensures root.None? ==> variables == map[] && drawn == 0
      ensures root.Some? ==> Registry(variables, drawn) == Register(stack, root.value, MtpFolderId, Registry(map[], 0))
    {
      this.stack := stack;
      variables := map[];
      drawn := 0;
      new;
      if root.Some? {
        AddNodesFromMtp(root.value, MtpFolderId);
        RegisterIsInsertAll(stack, root.value, MtpFolderId, Registry(map[], 0));
        InsertAllSelfKeyed(stack, Reached(root.value, MtpFolderId), Registry(map[], 0));
      }
    }

    method AddNodesFromMtp(n: Node, parent: string)
      modifies this`variables, this`drawn
      ensures Registry(variables, drawn) == Register(stack, n, parent, old(Registry(variables, drawn)))
      decreases n, 1
    {
      if IsMtpFolder(n) {
        AddChildren(n.children, parent);
        return;
      }
      if n.nodeClass == "Variable" {
        var id: string;
        if !IsNullOrWhiteSpace(n.nodeId) {
          match stack.parseNodeId(n.nodeId.value)
          case Some(text) => { id := text; }
          case None => { id := StringNodeId(n.nodeId.value); }
        } else if !IsBlank(n.displayName) {
          id := StringNodeId(n.displayName);
        } else if !IsBlank(n.browseName) {
          id := StringNodeId(n.browseName);
        } else {
          id := StringNodeId(stack.guid(drawn));
          drawn := drawn + 1;
        }
        variables := variables[id := RecordOf(n, parent, id)];
        return;
      }
      AddChildren(n.children, FolderParent(n, parent));
    }

    method AddChildren(cs: seq<Node>, parent: string)
      modifies this`variables, this`drawn
      ensures Registry(variables, drawn) == RegisterAll(stack, cs, parent, old(Registry(variables, drawn)))
      decreases cs, 0
    {
      var i := 0;
      while i < |cs|
        invariant 0 <= i <= |cs|
        invariant RegisterAll(stack, cs[i..], parent, Registry(variables, drawn))
                  == RegisterAll(stack, cs, parent, old(Registry(variables, drawn)))
      {
        assert cs[i..][1..] == cs[i + 1..];
        AddNodesFromMtp(cs[i], parent);
        i := i + 1;
      }
    }

    /** `UpdateValue` with the key exactly as given. */
    method UpdateValue(key: string, v: Value)
      modifies this`variables
      ensures variables == WithValue(old(variables), key, v)
      ensures old(Valid()) ==> Valid()
    {
      if Valid() {
        WithValueSelfKeyed(variables, key, v);
      }
      if key in variables {
        variables := variables[key := variables[key].(value := Current(v))];
      }
    }

    /** `TryGetValue`: a read under the normalised key. */
    method TryGetValue(nodeId: Option<string>) returns (found: bool, value: Option<VariableValue>)
      ensures found <==> NormalizeKey(nodeId) in variables
      ensures found ==> value == Some(variables[NormalizeKey(nodeId)].value)
      ensures !found ==> value.None?
    {
      var key := NormalizeKey(nodeId);
      if key in variables {
        found, value := true, Some(variables[key].value);
      } else {
        found, value := false, None;
      }
    }

    /** `RefreshAddressSpace`: the table is cleared and, when the MTP folder
        is found and a tree is loaded, refilled from the tree. GUIDs already
        drawn stay drawn. */
    method RefreshAddressSpace(root: Option<Node>, folderFound: bool)
      modifies this`variables, this`drawn
      ensures Valid()
      ensures !(folderFound && root.Some?) ==> variables == map[] && drawn == old(drawn)
      ensures folderFound && root.Some? ==>
                Registry(variables, drawn) == Register(stack, root.value, MtpFolderId, Registry(map[], old(drawn)))
    {
      variables := map[];
      if !folderFound {
        return;
      }
      if root.Some? {
        ghost var start := Registry(variables, drawn);
        AddNodesFromMtp(root.value, MtpFolderId);
        RegisterIsInsertAll(stack, root.value, MtpFolderId, start);
        InsertAllSelfKeyed(stack, Reached(root.value, MtpFolderId), start);
      }
    }

    /** The write callback of the variable filed under `key`: the value is
        stored and the notice carries the variable's NodeId text. */
    method OnSimpleWriteValue(key: string, v: Value) returns (notice: ExternalWrite)
      requires Valid() && key in variables
      modifies this`variables
      ensures Valid() && variables == WithValue(old(variables), key, v)
      ensures notice == ExternalWrite(key, v)
    {
      variables := variables[key := variables[key].(value := Current(v))];
      notice := ExternalWrite(variables[key].nodeId, v);
    }
  }
}
