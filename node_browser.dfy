/** The pure helpers of the browser UI's node page: its copy of the tag-id
    normaliser, the rewrite it applies to ids arriving from the hub, the id
    index over the displayed tree, the data-type canonicaliser, the search
    filter and the expansion toggle. Rendering, the fetches and the hub
    connection are not part of this model. */
module Browser {
  import opened Wrappers
  import opened Text
  import opened Values
  import opened NodeIds
  import Models
  import OpcUaServer

  /** A node of the displayed tree. An absent `children` list is the
      empty one (every helper here treats the two alike), and an absent
      `expanded` flag is false. */
  datatype TreeNode = TreeNode(id: string, name: string, nodeId: string, dataType: string,
                               value: Value, children: seq<TreeNode>, expanded: bool)

  /** The nodes of a tree in preorder, and of a list of trees. */
  function Nodes(n: TreeNode): seq<TreeNode>
    decreases n, 1
  {
    [n] + NodesAll(n.children)
  }

  function NodesAll(ns: seq<TreeNode>): seq<TreeNode>
    decreases ns, 0
  {
    if ns == [] then [] else Nodes(ns[0]) + NodesAll(ns[1..])
  }

  // ---------------------------------------------------------------------
  // Ids
  // ---------------------------------------------------------------------

  /** `/^NS\d+\|/i`: `NS` in either case, digits, and a `|`. */
  predicate HasNsPrefix(s: string) {
    |s| >= 2 && ToLower(s[0]) == 'n' && ToLower(s[1]) == 's'
    && var n := LeadingDigits(s[2..]);
       0 < n < |s| - 2 && s[2..][n] == '|'
  }

  /** The prefix test only skips strings the full pattern rejects anyway. */
  lemma MatchHasNsPrefix(d: Dialect, s: string)
    ensures MatchNsForm(d, s).Some? ==> HasNsPrefix(s)
  {
  }

  /** `normalizeIncoming`: the `NS<d>|x|tail` form rewritten to
      `ns=<d>;s=tail`; anything else as it came. */
  function NormalizeIncoming(id: string): string {
    if HasNsPrefix(id) then RewriteNsForm(JsRegex, id) else id
  }

  /** `normalizeIncoming` does not trim and adds no namespace: only a
      match of the pattern is changed, and it becomes the normal form. */
  lemma NormalizeIncomingSpec(id: string)
    ensures MatchNsForm(JsRegex, id).None? ==> NormalizeIncoming(id) == id
    ensures MatchNsForm(JsRegex, id).Some? ==>
              var f := MatchNsForm(JsRegex, id).value;
              NormalizeIncoming(id) == "ns=" + f.index + ";s=" + f.identifier
              && IsNormalForm(NormalizeIncoming(id))
  {
    MatchHasNsPrefix(JsRegex, id);
    if MatchNsForm(JsRegex, id).Some? {
      RewriteIsNormal(JsRegex, id);
    }
  }

  /** `normId`: the empty string as it is; otherwise trimmed, the NS form
      rewritten, and `ns=2;s=` in front unless it starts with `ns=`. */
  function NormId(id: string): string {
    if id == "" then id
    else
      var s := NormalizeIncoming(JsTrim(id));
      if IsNormalForm(s) then s else "ns=2;s=" + s
  }

  /** A non-empty id always comes out in normal form, with no white space
      at either end. */
  lemma NormIdSpec(id: string)
    ensures id == "" ==> NormId(id) == ""
    ensures id != "" ==> IsNormalForm(NormId(id)) && Trimmed(NormId(id), JsSpace)
  {
    if id != "" {
      var t := JsTrim(id);
      TrimWithSpec(id, JsSpace);
      var s := NormalizeIncoming(t);
      MatchHasNsPrefix(JsRegex, t);
      if MatchNsForm(JsRegex, t).Some? {
        RewriteTrimmed(JsRegex, JsSpace, t);
      }
      assert s == RewriteNsForm(JsRegex, t);
      if !IsNormalForm(s) {
        var r := "ns=2;s=" + s;
        assert r[..3] == "ns=";
        TrimmedAfterPrefix("ns=2;s=", s, JsSpace);
      }
    }
  }

  /** Normalising an id again changes nothing. */
  lemma NormIdIdempotent(id: string)
    ensures NormId(NormId(id)) == NormId(id)
  {
    NormIdSpec(id);
    var r := NormId(id);
    if r != "" {
      TrimWithUnchanged(r, JsSpace);
      NormalFormDoesNotMatch(JsRegex, r);
      NotNsPrefixed(r);
    }
  }

  /** A string in normal form fails the prefix test: its third character is `=`. */
  lemma NotNsPrefixed(s: string)
    requires IsNormalForm(s)
    ensures !HasNsPrefix(s)
  {
    LowerAt(s[..3], 2);
    assert s[2..][0] == s[2];
  }

  /** A character on which the two normalisers cannot part: not one of
      the white space only one runtime trims (U+0085, U+FEFF), and not a
      line terminator only JavaScript's `.` rejects (CR, U+2028, U+2029). */
  predicate Agreeing(c: char) {
    SameSpace(c) && c != '\r' && c as int != 0x2028 && c as int != 0x2029
  }

  /** On every non-empty id made of such characters, the UI's `normId`
      and the server's key normalisation give the same key. */
  lemma NormIdAgrees(id: string)
    requires id != "" && forall i :: 0 <= i < |id| ==> Agreeing(id[i])
    ensures NormId(id) == OpcUaServer.NormalizeKey(Some(id))
  {
    TrimsAgree(id);
    var t := Trim(id);
    TrimChars(id, DotNetSpace);
    TrimWithSpec(id, DotNetSpace);
    assert forall i :: 0 <= i < |t| ==> Agreeing(t[i]);
    MatchDialectsAgree(t);
    MatchHasNsPrefix(JsRegex, t);
    assert NormalizeIncoming(t) == RewriteNsForm(JsRegex, t);
    if !StartsWithIgnoreCase(t, "ns") {
      MatchNeedsNsPrefix(DotNetRegex, t);
    }
  }

  /** They part on the empty id: the UI keeps it, the server does not. */
  lemma NormIdOfEmpty()
    ensures NormId("") == "" && OpcUaServer.NormalizeKey(Some("")) == "ns=2;s="
  {
    assert Trim("") == "";
    assert !IsNormalForm("");
  }

  /** And on a leading U+0085, which only the server trims away. */
  lemma NormIdOfNextLine()
    ensures var id := [0x85 as char] + "R";
            NormId(id) == "ns=2;s=" + id && OpcUaServer.NormalizeKey(Some(id)) == "ns=2;s=R"
  {
    var id := [0x85 as char] + "R";
    assert JsTrim(id) == id by {
      TrimWithUnchanged(id, JsSpace);
    }
    assert TrimStart(id, DotNetSpace) == "R";
    assert Trim(id) == "R";
    NotNsPrefixAt(id);
    NotNsPrefixAt("R");
  }

  /** A string whose first character is not `n` or `N` is not in normal
      form and fails both prefix tests. */
  lemma NotNsPrefixAt(s: string)
    requires s != [] && ToLower(s[0]) != 'n'
    ensures !HasNsPrefix(s) && !IsNormalForm(s) && !StartsWithIgnoreCase(s, "ns")
  {
    NotStartsWithAt(s, "ns=", 0);
    NotStartsWithAt(s, "ns", 0);
  }

  // ---------------------------------------------------------------------
  // The tree and its index
  // ---------------------------------------------------------------------

  /** The tree `fetchVariables` builds from `/api/variables`: one folder
      "MTP", expanded, holding one leaf per variable in list order, with
      the position as id and the normalised node id. */
  function BuildTree(vars: seq<Models.VariableInfo>): (tree: seq<TreeNode>)
    ensures |tree| == 1 && tree[0].nodeId == "MTP" && tree[0].expanded
    ensures |tree[0].children| == |vars|
    ensures forall i :: 0 <= i < |vars| ==>
              var leaf := tree[0].children[i];
              leaf.id == NatToString(i) && leaf.name == vars[i].displayName
              && leaf.nodeId == NormId(vars[i].nodeId) && leaf.dataType == vars[i].dataType
              && leaf.value == vars[i].value.GetOr(Other("")) && leaf.children == []
  {
    [TreeNode("root", "MTP", "MTP", "Folder", Other(""),
              seq(|vars|, i requires 0 <= i < |vars| =>
                    TreeNode(NatToString(i), vars[i].displayName, NormId(vars[i].nodeId),
                             vars[i].dataType, vars[i].value.GetOr(Other("")), [], false)),
              true)]
  }

  /** The index after `walk(n)`: the node under its own id and under the
      normalised id, then its children's entries; a later node wins a key. */
  function Indexed(m: map<string, TreeNode>, n: TreeNode): map<string, TreeNode>
    decreases n, 1
  {
    IndexedAll(m[n.nodeId := n][NormId(n.nodeId) := n], n.children)
  }

  function IndexedAll(m: map<string, TreeNode>, ns: seq<TreeNode>): map<string, TreeNode>
    decreases ns, 0
  {
    if ns == [] then m else IndexedAll(Indexed(m, ns[0]), ns[1..])
  }

  /** A key the walk reaches names a node of the tree, by its id or its
      normalised id. */
  predicate NamesNode(k: string, n: TreeNode) {
    k == n.nodeId || k == NormId(n.nodeId)
  }

  /** Both keys of every node of a tree, and of a list of trees. */
  function KeysOf(n: TreeNode): set<string>
    decreases n, 1
  {
    {n.nodeId, NormId(n.nodeId)} + KeysOfAll(n.children)
  }

  function KeysOfAll(ns: seq<TreeNode>): set<string>
    decreases ns, 0
  {
    if ns == [] then {} else KeysOf(ns[0]) + KeysOfAll(ns[1..])
  }

  /** The walk adds exactly both keys of every node. */
  lemma {:induction false} IndexedKeys(m: map<string, TreeNode>, n: TreeNode)
    ensures Indexed(m, n).Keys == m.Keys + KeysOf(n)
    decreases n, 1
  {
    IndexedAllKeys(m[n.nodeId := n][NormId(n.nodeId) := n], n.children);
  }

  lemma {:induction false} IndexedAllKeys(m: map<string, TreeNode>, ns: seq<TreeNode>)
    ensures IndexedAll(m, ns).Keys == m.Keys + KeysOfAll(ns)
    decreases ns, 0
  {
    if ns != [] {
      IndexedKeys(m, ns[0]);
      IndexedAllKeys(Indexed(m, ns[0]), ns[1..]);
    }
  }

  /** Each key leads to the entry it had before the walk, or to a node of
      the tree that it names. */
  lemma {:induction false} IndexedSound(m: map<string, TreeNode>, n: TreeNode, k: string)
    requires k in Indexed(m, n)
    ensures (k in m && Indexed(m, n)[k] == m[k])
            || (Indexed(m, n)[k] in Nodes(n) && NamesNode(k, Indexed(m, n)[k]))
    decreases n, 1
  {
    var m' := m[n.nodeId := n][NormId(n.nodeId) := n];
    IndexedAllSound(m', n.children, k);
  }

  lemma {:induction false} IndexedAllSound(m: map<string, TreeNode>, ns: seq<TreeNode>, k: string)
    requires k in IndexedAll(m, ns)
    ensures (k in m && IndexedAll(m, ns)[k] == m[k])
            || (IndexedAll(m, ns)[k] in NodesAll(ns) && NamesNode(k, IndexedAll(m, ns)[k]))
    decreases ns, 0
  {
    if ns != [] {
      var m1 := Indexed(m, ns[0]);
      IndexedAllSound(m1, ns[1..], k);
      if k in m1 && IndexedAll(m, ns)[k] == m1[k] {
        IndexedSound(m, ns[0], k);
      }
    }
  }

  /** The nodes of childless trees are those trees. */
  lemma {:induction false} NodesOfLeaves(ns: seq<TreeNode>, d: TreeNode)
    requires forall i :: 0 <= i < |ns| ==> ns[i].children == []
    ensures d in NodesAll(ns) <==> d in ns
  {
    if ns != [] {
      NodesOfLeaves(ns[1..], d);
      assert ns == [ns[0]] + ns[1..];
    }
  }

  /** The keys of childless trees are the two keys of each of them. */
  lemma {:induction false} KeysOfLeaves(ns: seq<TreeNode>, k: string)
    requires forall i :: 0 <= i < |ns| ==> ns[i].children == []
    ensures k in KeysOfAll(ns) <==> exists i :: 0 <= i < |ns| && NamesNode(k, ns[i])
  {
    if ns != [] {
      KeysOfLeaves(ns[1..], k);
      assert KeysOf(ns[0]) == {ns[0].nodeId, NormId(ns[0].nodeId)};
      if k in KeysOfAll(ns[1..]) {
        var i :| 0 <= i < |ns[1..]| && NamesNode(k, ns[1..][i]);
        assert ns[i + 1] == ns[1..][i];
      }
      if exists i :: 0 <= i < |ns| && NamesNode(k, ns[i]) {
        var i :| 0 <= i < |ns| && NamesNode(k, ns[i]);
        if i > 0 {
          assert ns[1..][i - 1] == ns[i];
        }
      }
    }
  }

  /** The index of a fetched tree holds the folder under "MTP" and its
      normal form, and every variable under its normalised id, and no
      other key. */
  lemma BuildTreeIndexKeys(vars: seq<Models.VariableInfo>, k: string)
    ensures k in IndexedAll(map[], BuildTree(vars))
            <==> k == "MTP" || k == NormId("MTP") || exists i :: 0 <= i < |vars| && k == NormId(vars[i].nodeId)
  {
    var tree := BuildTree(vars);
    var leaves := tree[0].children;
    IndexedAllKeys(map[], tree);
    assert KeysOfAll(tree) == KeysOf(tree[0]) + KeysOfAll([]);
    KeysOfLeaves(leaves, k);
    forall i | 0 <= i < |vars|
      ensures NamesNode(k, leaves[i]) <==> k == NormId(vars[i].nodeId)
    {
      NormIdIdempotent(vars[i].nodeId);
    }
    if exists i :: 0 <= i < |vars| && k == NormId(vars[i].nodeId) {
      var i :| 0 <= i < |vars| && k == NormId(vars[i].nodeId);
      assert NamesNode(k, leaves[i]);
    }
  }

  /** An id the hub sends as the server's bare key (not in normal form, not
      in the NS form, and not the folder's own id "MTP") reaches no node of
      the fetched tree: `normalizeIncoming` leaves it bare, and the index
      only holds normalised leaf ids. */
  lemma IncomingBareIdNotIndexed(vars: seq<Models.VariableInfo>, id: string)
    requires id != "" && id != "MTP" && !IsNormalForm(id) && !HasNsPrefix(id)
    ensures NormalizeIncoming(id) == id && id !in IndexedAll(map[], BuildTree(vars))
  {
    var tree := BuildTree(vars);
    var root := tree[0];
    var leaves := root.children;
    if id in IndexedAll(map[], tree) {
      IndexedAllSound(map[], tree, id);
      var d := IndexedAll(map[], tree)[id];
      assert NodesAll(tree) == Nodes(root) + NodesAll([]);
      assert Nodes(root) == [root] + NodesAll(leaves);
      if d == root {
        NormIdSpec("MTP");
        assert false;
      } else {
        NodesOfLeaves(leaves, d);
        var i :| 0 <= i < |leaves| && leaves[i] == d;
        NormIdSpec(vars[i].nodeId);
        NormIdIdempotent(vars[i].nodeId);
        assert false;
      }
    }
  }

  /** The index the page keeps over the displayed tree. */
  class NodeIndex {
    var entries: map<string, TreeNode>

    constructor ()
      ensures entries == map[]
    {
      entries := map[];
    }

    /** `walk(n)`. */
    method Walk(n: TreeNode)
      modifies this`entries
      ensures entries == Indexed(old(entries), n)
      decreases n, 1
    {
      entries := entries[n.nodeId := n];
      entries := entries[NormId(n.nodeId) := n];
      WalkAll(n.children);
    }

    /** `ns.forEach(walk)`. */
    method WalkAll(ns: seq<TreeNode>)
      modifies this`entries
      ensures entries == IndexedAll(old(entries), ns)
      decreases ns, 0
    {
      var i := 0;
      while i < |ns|
        invariant 0 <= i <= |ns|
        invariant IndexedAll(entries, ns[i..]) == IndexedAll(old(entries), ns)
      {
        assert ns[i..][1..] == ns[i + 1..];
        Walk(ns[i]);
        i := i + 1;
      }
    }

    /** The effect run whenever the tree changes: clear, then walk every root. */
    method Rebuild(nodes: seq<TreeNode>)
      modifies this`entries
      ensures entries == IndexedAll(map[], nodes)
    {
      entries := map[];
      WalkAll(nodes);
    }
  }

  // ---------------------------------------------------------------------
  // Data types and the filter
  // ---------------------------------------------------------------------

  /** The name the `switch` looks at: lower-cased, trimmed, and without an
      `xs:` and then without an `xsd:` prefix (compared exactly). */
  function StrippedType(dataType: string): string {
    var lowered := JsTrim(Lower(dataType));
    var noXs := if "xs:" <= lowered then lowered[3..] else lowered;
    if "xsd:" <= noXs then noXs[4..] else noXs
  }

  /** The `switch` of `normalizeDataType`: synonyms collapse, anything else
      passes through. */
  function CanonicalType(name: string): string {
    if name in {"bool", "boolean"} then "boolean"
    else if name in {"string", "normalizedstring", "token"} then "string"
    else if name in {"int", "integer", "int32"} then "int32"
    else if name in {"float", "single"} then "float"
    else if name == "double" then "double"
    else if name in {"byte", "unsignedbyte"} then "byte"
    else if name in {"short", "int16"} then "int16"
    else if name in {"long", "int64"} then "int64"
    else if name in {"datetime", "date", "time"} then "datetime"
    else name
  }

  /** Every name the `switch` collapses. */
  const Synonyms: set<string> := {"bool", "boolean", "string", "normalizedstring", "token",
                                  "int", "integer", "int32", "float", "single", "double",
                                  "byte", "unsignedbyte", "short", "int16", "long", "int64",
                                  "datetime", "date", "time"}

  /** `normalizeDataType`: "" for the empty name. */
  function NormalizeDataType(dataType: string): string {
    if dataType == "" then "" else CanonicalType(StrippedType(dataType))
  }

  /** Names outside the synonym table pass through the `switch`; the ones
      inside land on one of its canonical names, a fixed point. */
  lemma CanonicalTypeSpec(name: string)
    ensures name !in Synonyms ==> CanonicalType(name) == name
    ensures name in Synonyms ==>
              CanonicalType(name) in Synonyms && CanonicalType(CanonicalType(name)) == CanonicalType(name)
  {
  }

  /** Case does not matter. */
  lemma NormalizeDataTypeIgnoresCase(s: string)
    ensures NormalizeDataType(Lower(s)) == NormalizeDataType(s)
  {
    LowerIdempotent(s);
  }

  /** Neither does white space around a non-blank name. */
  lemma NormalizeDataTypeIgnoresSpace(s: string)
    requires JsTrim(s) != ""
    ensures NormalizeDataType(JsTrim(s)) == NormalizeDataType(s)
  {
    TrimLower(s, JsSpace);
    TrimLower(JsTrim(s), JsSpace);
    TrimWithIdempotent(s, JsSpace);
    assert JsTrim(Lower(JsTrim(s))) == JsTrim(Lower(s));
  }

  /** A trimmed name without capitals or prefix is looked up as it is. */
  lemma StrippedOfPlain(t: string)
    requires forall i :: 0 <= i < |t| ==> !('A' <= t[i] <= 'Z')
    requires Trimmed(t, JsSpace) && !("xs:" <= t) && !("xsd:" <= t)
    ensures StrippedType(t) == t
  {
    LowerUnchanged(t);
    TrimWithUnchanged(t, JsSpace);
  }

  /** The `xs:` prefix of a trimmed name without capitals is cut. */
  lemma StrippedOfSchema(t: string)
    requires forall i :: 0 <= i < |"xs:" + t| ==> !('A' <= ("xs:" + t)[i] <= 'Z')
    requires Trimmed("xs:" + t, JsSpace) && !("xsd:" <= t)
    ensures StrippedType("xs:" + t) == t
  {
    var a := "xs:" + t;
    LowerUnchanged(a);
    TrimWithUnchanged(a, JsSpace);
    assert "xs:" <= a && a[3..] == t;
  }

  /** A schema prefix goes before the synonyms are looked up. */
  lemma StrippedSchemaType()
    ensures StrippedType("xs:int") == "int"
  {
    assert "xs:int" == "xs:" + "int";
    StrippedOfSchema("int");
  }

  /** A capitalised name is folded first. */
  lemma StrippedCapitalType()
    ensures StrippedType("Int32") == "int32"
  {
    var c := "Int32";
    LowerUnchanged(c[1..]);
    assert Lower(c) == [ToLower(c[0])] + Lower(c[1..]) == "int32";
    StrippedOfPlain("int32");
  }

  /** So `xs:int` and `Int32` name the same type. */
  lemma NormalizeDataTypeOfSchemaType()
    ensures NormalizeDataType("xs:int") == NormalizeDataType("Int32") == "int32"
  {
    StrippedSchemaType();
    StrippedCapitalType();
    CanonicalIntNames();
  }

  /** `int` and `int32` share one case of the `switch`. */
  lemma CanonicalIntNames()
    ensures CanonicalType("int") == "int32" && CanonicalType("int32") == "int32"
  {
    assert "int" in {"int", "integer", "int32"};
    assert "int32" in {"int", "integer", "int32"};
  }

  /** `matches(n)` for the lower-cased, trimmed search `term` and the
      lower-cased type filter `wanted`: the term occurs in the name or the
      node id (`toLowerCase().includes`, which is a case-blind occurrence of
      the lower-case term); a node with children is judged by the term
      alone, a leaf also by its type unless the filter is "all". */
  predicate Matches(term: string, wanted: string, n: TreeNode) {
    var byTerm := |term| == 0 || ContainsIgnoreCase(n.name, term) || ContainsIgnoreCase(n.nodeId, term);
    if |n.children| > 0 then byTerm
    else byTerm && (wanted == "all" || NormalizeDataType(n.dataType) == NormalizeDataType(wanted))
  }

  /** A node with children is judged by the search term alone: the type
      filter does not matter for it. */
  lemma FolderIgnoresTypeFilter(term: string, wanted: string, other: string, n: TreeNode)
    requires |n.children| > 0
    ensures Matches(term, wanted, n) == Matches(term, other, n)
  {
  }

  /** The filter "all" admits every type: a node's type does not matter. */
  lemma AllAdmitsEveryType(term: string, n: TreeNode, dataType: string)
    ensures Matches(term, "all", n) == Matches(term, "all", n.(dataType := dataType))
  {
  }

  /** `filterTree` on one node: kept, with its children filtered, when it
      matches or keeps a child. */
  function FilterNode(term: string, wanted: string, n: TreeNode): (r: Option<TreeNode>)
    ensures r.Some? ==> r.value == n.(children := r.value.children)
    decreases n, 1
  {
    var kids := FilterTree(term, wanted, n.children);
    if Matches(term, wanted, n) || |kids| > 0 then Some(n.(children := kids))
    else None
  }

  /** `filterTree` on a list: the kept nodes, in order. */
  function FilterTree(term: string, wanted: string, ns: seq<TreeNode>): (r: seq<TreeNode>)
    ensures |r| <= |ns|
    decreases ns, 0
  {
    if ns == [] then []
    else (match FilterNode(term, wanted, ns[0]) case Some(k) => [k] case None => [])
         + FilterTree(term, wanted, ns[1..])
  }

  /** The search as the page runs it. */
  function Filtered(nodes: seq<TreeNode>, searchTerm: string, dataTypeFilter: string): seq<TreeNode> {
    FilterTree(Lower(JsTrim(searchTerm)), Lower(dataTypeFilter), nodes)
  }

  /** A node is kept exactly when some node of its subtree matches. */
  lemma {:induction false} FilterNodeSpec(term: string, wanted: string, n: TreeNode)
    ensures FilterNode(term, wanted, n).Some? <==> exists d :: d in Nodes(n) && Matches(term, wanted, d)
    decreases n, 1
  {
    FilterTreeSpec(term, wanted, n.children);
  }

  /** A list keeps something exactly when some node of its trees matches. */
  lemma {:induction false} FilterTreeSpec(term: string, wanted: string, ns: seq<TreeNode>)
    ensures |FilterTree(term, wanted, ns)| > 0 <==> exists d :: d in NodesAll(ns) && Matches(term, wanted, d)
    decreases ns, 0
  {
    if ns != [] {
      FilterNodeSpec(term, wanted, ns[0]);
      FilterTreeSpec(term, wanted, ns[1..]);
      assert NodesAll(ns) == Nodes(ns[0]) + NodesAll(ns[1..]);
    }
  }

  /** Filtering a concatenation filters each part: the kept siblings stay
      in their order. */
  lemma {:induction false} FilterTreeConcat(term: string, wanted: string, a: seq<TreeNode>, b: seq<TreeNode>)
    ensures FilterTree(term, wanted, a + b) == FilterTree(term, wanted, a) + FilterTree(term, wanted, b)
  {
    if a != [] {
      assert (a + b)[0] == a[0];
      assert (a + b)[1..] == a[1..] + b;
      FilterTreeConcat(term, wanted, a[1..], b);
    } else {
      assert a + b == b;
    }
  }

  /** With no search term and the filter "all", every node matches and the
      whole tree is kept as it is. */
  lemma {:induction false} FilterAllKeepsNode(n: TreeNode)
    ensures FilterNode("", "all", n) == Some(n)
    decreases n, 1
  {
    FilterAllKeepsTree(n.children);
  }

  lemma {:induction false} FilterAllKeepsTree(ns: seq<TreeNode>)
    ensures FilterTree("", "all", ns) == ns
    decreases ns, 0
  {
    if ns != [] {
      FilterAllKeepsNode(ns[0]);
      FilterAllKeepsTree(ns[1..]);
    }
  }

  // ---------------------------------------------------------------------
  // Expansion
  // ---------------------------------------------------------------------

  /** `toggleNodeExpansion` on one node: a node with the id flips its flag
      and keeps its children untouched; any other node has its children
      rebuilt. */
  function ToggleNode(id: string, n: TreeNode): (r: TreeNode)
    ensures r.id == n.id && r.name == n.name && r.nodeId == n.nodeId
    ensures r.dataType == n.dataType && r.value == n.value
    ensures n.id == id ==> r.expanded == !n.expanded && r.children == n.children
    ensures n.id != id ==> r.expanded == n.expanded && |r.children| == |n.children|
    decreases n, 1
  {
    if n.id == id then n.(expanded := !n.expanded)
    else n.(children := Toggle(id, n.children))
  }

  function Toggle(id: string, ns: seq<TreeNode>): (r: seq<TreeNode>)
    ensures |r| == |ns|
    decreases ns, 0
  {
    if ns == [] then [] else [ToggleNode(id, ns[0])] + Toggle(id, ns[1..])
  }

  /** Toggling the same id twice restores the tree. */
  lemma {:induction false} ToggleNodeTwice(id: string, n: TreeNode)
    ensures ToggleNode(id, ToggleNode(id, n)) == n
    decreases n, 1
  {
    if n.id != id {
      ToggleTwice(id, n.children);
    }
  }

  lemma {:induction false} ToggleTwice(id: string, ns: seq<TreeNode>)
    ensures Toggle(id, Toggle(id, ns)) == ns
    decreases ns, 0
  {
    if ns != [] {
      ToggleNodeTwice(id, ns[0]);
      ToggleTwice(id, ns[1..]);
    }
  }

  /** An id no node carries changes nothing. */
  lemma {:induction false} ToggleNodeAbsent(id: string, n: TreeNode)
    requires forall d :: d in Nodes(n) ==> d.id != id
    ensures ToggleNode(id, n) == n
    decreases n, 1
  {
    ToggleAbsent(id, n.children);
  }

  lemma {:induction false} ToggleAbsent(id: string, ns: seq<TreeNode>)
    requires forall d :: d in NodesAll(ns) ==> d.id != id
    ensures Toggle(id, ns) == ns
    decreases ns, 0
  {
    if ns != [] {
      assert NodesAll(ns) == Nodes(ns[0]) + NodesAll(ns[1..]);
      ToggleNodeAbsent(id, ns[0]);
      ToggleAbsent(id, ns[1..]);
    }
  }
}
