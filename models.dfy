/** The shared tree type (`MTPNode`) and the snapshot record (`VariableInfo`). */
module Models {
  import opened Wrappers
  import opened Values

  /** A finished node of the descriptor tree. `access` and `description` are
      the two properties the parser and the web host use beside the declared ones. */
  datatype Node = Node(
    displayName: string,
    browseName: string,
    nodeClass: string,
    dataType: Option<string>,
    nodeId: Option<string>,
    access: Option<byte>,
    description: Option<string>,
    children: seq<Node>)

  /** The state of a node just constructed: empty names, class "Folder",
      no data type, no node id, no children. */
  const FreshNode := Node("", "", "Folder", None, None, None, None, [])

  /** A childless Variable node whose display and browse names are both `name`. */
  function VariableLeaf(name: string, dataType: string, nodeId: string,
                        access: Option<byte>, description: Option<string>): (n: Node)
    ensures n.nodeClass == "Variable" && n.children == []
    ensures n.displayName == name && n.browseName == name
    ensures n.dataType == Some(dataType) && n.nodeId == Some(nodeId)
  {
    Node(name, name, "Variable", Some(dataType), Some(nodeId), access, description, [])
  }

  /** The tree in preorder: a node, then each child's preorder in list order
      (`SimulationEngine.Enumerate`, and the order of `WebHost`'s walk). */
  function Preorder(n: Node): (r: seq<Node>)
    ensures |r| >= 1 && r[0] == n
    decreases n, 1
  {
    [n] + PreorderAll(n.children)
  }

  function PreorderAll(cs: seq<Node>): seq<Node>
    decreases cs, 0
  {
    if cs == [] then [] else PreorderAll(cs[..|cs| - 1]) + Preorder(cs[|cs| - 1])
  }

  /** A leaf is the whole of its preorder: it contributes exactly one node,
      itself, to every traversal of a tree that holds it. */
  lemma LeafPreorder(name: string, dataType: string, nodeId: string,
                     access: Option<byte>, description: Option<string>)
    ensures Preorder(VariableLeaf(name, dataType, nodeId, access, description))
            == [VariableLeaf(name, dataType, nodeId, access, description)]
  {
  }


  /** The preorder holds the node itself and the nodes of its children's
      subtrees, and nothing else. */
  lemma {:induction false} PreorderMembers(n: Node, d: Node)
    ensures d in Preorder(n) <==> d == n || exists c :: c in n.children && d in Preorder(c)
    decreases n, 1
  {
    PreorderAllMembers(n.children, d);
  }

  lemma {:induction false} PreorderAllMembers(cs: seq<Node>, d: Node)
    ensures d in PreorderAll(cs) <==> exists c :: c in cs && d in Preorder(c)
    decreases cs, 0
  {
    if cs != [] {
      var init := cs[..|cs| - 1];
      var last := cs[|cs| - 1];
      PreorderAllMembers(init, d);
      assert cs == init + [last];
      if d in Preorder(last) {
        assert last in cs;
      } else if d in PreorderAll(init) {
        var c :| c in init && d in Preorder(c);
        assert c in cs;
      }
    }
  }

  /** A node under construction: settable properties and a child list that
      is only ever appended to (the list itself is never replaced). */
  class MTPNode {
    var displayName: string
    var browseName: string
    var nodeClass: string
    var dataType: Option<string>
    var nodeId: Option<string>
    var access: Option<byte>
    var description: Option<string>
    var children: seq<Node>

    constructor ()
      ensures Snapshot() == FreshNode
    {
      displayName := "";
      browseName := "";
      nodeClass := "Folder";
      dataType := None;
      nodeId := None;
      access := None;
      description := None;
      children := [];
    }

    /** A folder with the given names and no children. */
    constructor Folder(displayName: string, browseName: string)
      ensures this.displayName == displayName && this.browseName == browseName && nodeClass == "Folder"
      ensures dataType == None && nodeId == None && access == None && description == None && children == []
    {
      this.displayName := displayName;
      this.browseName := browseName;
      nodeClass := "Folder";
      dataType := None;
      nodeId := None;
      access := None;
      description := None;
      children := [];
    }

    /** The node's current state as a value. */
    function Snapshot(): Node
      reads this
    {
      Node(displayName, browseName, nodeClass, dataType, nodeId, access, description, children)
    }

    /** `Children.Add(child)`: the child goes at the end; no other property
        can change (the frame is the child list alone). */
    method AddChild(child: Node)
      modifies this`children
      ensures children == old(children) + [child]
    {
      children := children + [child];
    }
  }

  /** One variable as the UI sees it. */
  datatype VariableInfo = VariableInfo(
    nodeId: string,
    displayName: string,
    dataType: string,
    value: Option<Value>,
    access: Option<byte>,
    description: Option<string>)
}
