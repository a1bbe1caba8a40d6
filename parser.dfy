/** The descriptor parser: three extraction passes over a parsed AutomationML
    document (generic `Variable` elements, OPC UA item interfaces, the generic
    `Attribute` fallback), the archive that concatenates its documents' leaves,
    and the dispatch on the file extension. The tree it builds is flat: a
    folder whose children are all leaves. */
module Parser {
  import opened Wrappers
  import opened Text
  import opened Seqs
  import opened Values
  import opened Xml
  import opened Models

  datatype ParseError =
    | Unsupported(extension: string)     // NotSupportedException
    | InvalidDocument(source: string)    // unreadable text or malformed XML
    | InvalidArchive(path: string)       // unreadable file or not a zip archive

  /** A zip entry: its full name and, if its text is well-formed XML, the document. */
  datatype ArchiveEntry = ArchiveEntry(fullName: string, content: Option<Element>)

  // ---------------------------------------------------------------- paths

  predicate IsSeparator(c: char) {
    c == '\\' || c == '/'
  }

  /** `Path.GetFileName`: what follows the last directory separator. */
  function GetFileName(path: string): string {
    if path == [] || IsSeparator(path[|path| - 1]) then []
    else GetFileName(path[..|path| - 1]) + [path[|path| - 1]]
  }

  /** The file name is a suffix of the path, preceded by a separator
      unless it is the whole path... */
  lemma {:induction false} GetFileNameSuffix(path: string)
    ensures |GetFileName(path)| <= |path| && GetFileName(path) == path[|path| - |GetFileName(path)|..]
    ensures |GetFileName(path)| < |path| ==> IsSeparator(path[|path| - |GetFileName(path)| - 1])
  {
    if path != [] && !IsSeparator(path[|path| - 1]) {
      var init := path[..|path| - 1];
      GetFileNameSuffix(init);
      var r := GetFileName(init);
      assert GetFileName(path) == r + [path[|path| - 1]];
      assert path[|path| - |r| - 1..] == init[|init| - |r|..] + [path[|path| - 1]];
      if |r| < |init| {
        assert path[|path| - |r| - 2] == init[|init| - |r| - 1];
      }
    }
  }

  /** ... and holds no separator. */
  lemma {:induction false} GetFileNameNoSeparator(path: string)
    ensures forall i :: 0 <= i < |GetFileName(path)| ==> !IsSeparator(GetFileName(path)[i])
  {
    if path != [] && !IsSeparator(path[|path| - 1]) {
      var init := path[..|path| - 1];
      GetFileNameNoSeparator(init);
      var r := GetFileName(init);
      assert GetFileName(path) == r + [path[|path| - 1]];
    }
  }

  /** Position of the last '.', if any. */
  function LastDot(s: string): (r: Option<nat>)
    ensures r.Some? ==> r.value < |s|
  {
    if s == [] then None
    else if s[|s| - 1] == '.' then Some(|s| - 1)
    else LastDot(s[..|s| - 1])
  }

  lemma {:induction false} LastDotSpec(s: string)
    ensures LastDot(s).None? ==> forall i :: 0 <= i < |s| ==> s[i] != '.'
    ensures LastDot(s).Some? ==> s[LastDot(s).value] == '.' && forall i :: LastDot(s).value < i < |s| ==> s[i] != '.'
  {
    if s != [] && s[|s| - 1] != '.' {
      LastDotSpec(s[..|s| - 1]);
    }
  }

  /** The part of a file name from its last '.', or "" when there is no '.'
      or the '.' ends the name. */
  function ExtensionOf(name: string): string {
    match LastDot(name)
    case None => ""
    case Some(i) => if i == |name| - 1 then "" else name[i..]
  }

  /** A non-empty extension is a suffix of the name of at least two
      characters that starts with the name's last '.'. */
  lemma ExtensionOfSpec(name: string)
    ensures |ExtensionOf(name)| <= |name|
    ensures var r := ExtensionOf(name);
            r != [] ==> |r| >= 2 && r[0] == '.' && r == name[|name| - |r|..] && forall i :: 1 <= i < |r| ==> r[i] != '.'
    ensures ExtensionOf(name) == [] <==> LastDot(name).None? || LastDot(name).value == |name| - 1
  {
    LastDotSpec(name);
  }

  /** `Path.GetExtension`. */
  function GetExtension(path: string): string {
    ExtensionOf(GetFileName(path))
  }

  // ---------------------------------------------------------------- pass 1

  /** Pass 1: a `Variable` element becomes a leaf whose id is `ns=<ns>;s=<id>`. */
  function VariableLeafAt(l: Located): Option<Node> {
    var e := l.element;
    if e.name == "Variable" then
      var name := Attribute(e, "Name").GetOr("Unknown");
      var ns := Attribute(e, "NamespaceIndex").GetOr("2");
      var id := Attribute(e, "NodeId").GetOr(name);
      Some(VariableLeaf(name, Attribute(e, "DataType").GetOr("Double"), "ns=" + ns + ";s=" + id, None, None))
    else None
  }

  // ---------------------------------------------------------------- pass 2

  /** An `ExternalInterface` whose RefBaseClassPath mentions OPCUAItem. */
  predicate IsOpcUaItem(e: Element) {
    e.name == "ExternalInterface"
    && var rb := Attribute(e, "RefBaseClassPath");
       rb.Some? && ContainsIgnoreCase(rb.value, "opcuaitem")
  }

  /** The locals the attribute loop of an OPC UA item updates. */
  datatype ItemFields = ItemFields(
    identifier: string,
    dataType: string,
    namespace: string,
    access: Option<byte>,
    description: Option<string>)

  const InitialItemFields := ItemFields("", "xs:string", "2", None, None)

  /** The attribute's declared type: AttributeDataType, else DataType. */
  function DeclaredType(a: Element): Option<string> {
    match Attribute(a, "AttributeDataType")
    case Some(t) => Some(t)
    case None => Attribute(a, "DataType")
  }

  /** What one `Attribute` child does to the locals: the first of the
      case-insensitive name tests that holds decides. */
  function ReadItemAttribute(st: ItemFields, a: Element): ItemFields {
    var aName := Attribute(a, "Name").GetOr("");
    var aDt := DeclaredType(a);
    var aVal := FirstChildValue(a.children, "Value");
    if EqualsIgnoreCase(aName, "identifier") && !IsNullOrWhiteSpace(aVal) then
      st.(identifier := Trim(aVal.value), dataType := if !IsNullOrWhiteSpace(aDt) then aDt.value else st.dataType)
    else if EqualsIgnoreCase(aName, "namespace") && !IsNullOrWhiteSpace(aVal) then
      st.(namespace := Trim(aVal.value))
    else if EqualsIgnoreCase(aName, "datatype") && !IsNullOrWhiteSpace(aVal) then
      st.(dataType := Trim(aVal.value))
    else if EqualsIgnoreCase(aName, "access") && !IsNullOrWhiteSpace(aVal) then
      match ByteTryParse(Trim(aVal.value))
      case Some(b) => st.(access := Some(b))
      case None => st
    else if EqualsIgnoreCase(aName, "description") then
      st.(description := aVal)
    else st
  }

  /** The locals after the loop has seen the children `cs`; only `Attribute`
      children take part. */
  function ItemFold(cs: seq<Element>): ItemFields {
    if cs == [] then InitialItemFields
    else
      var st := ItemFold(cs[..|cs| - 1]);
      var a := cs[|cs| - 1];
      if a.name == "Attribute" then ReadItemAttribute(st, a) else st
  }

  /** The leaf of an OPC UA item: the identifier when one was read, otherwise
      the interface's name; the namespace index never reaches the leaf. */
  function ItemLeaf(ei: Element): Node {
    var eiName := Attribute(ei, "Name").GetOr("Item");
    var st := ItemFold(ei.children);
    VariableLeaf(eiName, st.dataType, if IsBlank(st.identifier) then eiName else st.identifier,
                 st.access, st.description)
  }

  function ItemLeafAt(l: Located): Option<Node> {
    if IsOpcUaItem(l.element) then Some(ItemLeaf(l.element)) else None
  }

  // The reference reading of pass 2: each local is decided by the last
  // attribute that sets it, independently of the others.

  /** The value of the last item `eff` assigns, or `default`. */
  function LastOr<T>(cs: seq<Element>, eff: Element -> Option<T>, default: T): T {
    if cs == [] then default
    else match eff(cs[|cs| - 1])
         case Some(v) => v
         case None => LastOr(cs[..|cs| - 1], eff, default)
  }

  predicate IsItemAttribute(a: Element, name: string) {
    a.name == "Attribute" && EqualsIgnoreCase(Attribute(a, "Name").GetOr(""), name)
  }

  function ValueOf(a: Element): Option<string> {
    FirstChildValue(a.children, "Value")
  }

  function IdentifierEffect(a: Element): Option<string> {
    if IsItemAttribute(a, "identifier") && !IsNullOrWhiteSpace(ValueOf(a))
    then Some(Trim(ValueOf(a).value)) else None
  }

  function DataTypeEffect(a: Element): Option<string> {
    if IsItemAttribute(a, "identifier") && !IsNullOrWhiteSpace(ValueOf(a)) && !IsNullOrWhiteSpace(DeclaredType(a))
    then Some(DeclaredType(a).value)
    else if IsItemAttribute(a, "datatype") && !IsNullOrWhiteSpace(ValueOf(a))
    then Some(Trim(ValueOf(a).value))
    else None
  }

  function AccessEffect(a: Element): Option<Option<byte>> {
    if IsItemAttribute(a, "access") && !IsNullOrWhiteSpace(ValueOf(a)) && ByteTryParse(Trim(ValueOf(a).value)).Some?
    then Some(ByteTryParse(Trim(ValueOf(a).value))) else None
  }

  function DescriptionEffect(a: Element): Option<Option<string>> {
    if IsItemAttribute(a, "description") then Some(ValueOf(a)) else None
  }

  /** The five names of the else-if chain differ in length, so an attribute
      name equals at most one of them ignoring case: no attribute sets two
      different locals. */
  lemma NamesExclusive(a: Element)
    ensures IsItemAttribute(a, "identifier") ==>
              !IsItemAttribute(a, "namespace") && !IsItemAttribute(a, "datatype")
              && !IsItemAttribute(a, "access") && !IsItemAttribute(a, "description")
    ensures IsItemAttribute(a, "namespace") ==>
              !IsItemAttribute(a, "datatype") && !IsItemAttribute(a, "access") && !IsItemAttribute(a, "description")
    ensures IsItemAttribute(a, "datatype") ==> !IsItemAttribute(a, "access") && !IsItemAttribute(a, "description")
    ensures IsItemAttribute(a, "access") ==> !IsItemAttribute(a, "description")
  {
    var n := Attribute(a, "Name").GetOr("");
    assert |Lower(n)| == |n|;
  }

  // Each local is the last value written to it: a DataType written by an
  // Identifier's declared type or by a DataType attribute, whichever comes
  // later; a Description with no Value clears the description.

  lemma {:induction false} ItemIdentifierLastWins(cs: seq<Element>)
    ensures ItemFold(cs).identifier == LastOr(cs, IdentifierEffect, "")
  {
    if cs != [] {
      ItemIdentifierLastWins(cs[..|cs| - 1]);
      NamesExclusive(cs[|cs| - 1]);
    }
  }

  lemma {:induction false} ItemDataTypeLastWins(cs: seq<Element>)
    ensures ItemFold(cs).dataType == LastOr(cs, DataTypeEffect, "xs:string")
  {
    if cs != [] {
      ItemDataTypeLastWins(cs[..|cs| - 1]);
      NamesExclusive(cs[|cs| - 1]);
    }
  }

  lemma {:induction false} ItemAccessLastWins(cs: seq<Element>)
    ensures ItemFold(cs).access == LastOr(cs, AccessEffect, None)
  {
    if cs != [] {
      ItemAccessLastWins(cs[..|cs| - 1]);
      NamesExclusive(cs[|cs| - 1]);
    }
  }

  lemma {:induction false} ItemDescriptionLastWins(cs: seq<Element>)
    ensures ItemFold(cs).description == LastOr(cs, DescriptionEffect, None)
  {
    if cs != [] {
      ItemDescriptionLastWins(cs[..|cs| - 1]);
      NamesExclusive(cs[|cs| - 1]);
    }
  }

  /** An identifier set by an Identifier attribute is never blank, so the
      interface name is used exactly when no Identifier attribute had a value. */
  lemma {:induction false} ItemIdentifierNonBlank(cs: seq<Element>)
    ensures ItemFold(cs).identifier == "" || !IsBlank(ItemFold(cs).identifier)
  {
    if cs != [] {
      ItemIdentifierNonBlank(cs[..|cs| - 1]);
      var a := cs[|cs| - 1];
      var aVal := FirstChildValue(a.children, "Value");
      if a.name == "Attribute" && EqualsIgnoreCase(Attribute(a, "Name").GetOr(""), "identifier")
         && !IsNullOrWhiteSpace(aVal) {
        TrimNonBlank(aVal.value);
      }
    }
  }

  /** The Namespace attribute is read but has no effect on the leaf. */
  lemma NamespaceIsIgnored(ei: Element, a: Element)
    requires IsItemAttribute(a, "namespace")
    ensures ItemLeaf(ei.(children := ei.children + [a])) == ItemLeaf(ei)
  {
    var cs := ei.children + [a];
    assert cs[..|cs| - 1] == ei.children;
    NamesExclusive(a);
  }

  // ---------------------------------------------------------------- pass 3

  /** The fallback's skip test as written: the parent is an ExternalInterface
      whose RefBaseClassPath (or "") contains OPCUAItem. */
  predicate BelongsToOpcUaItem(l: Located) {
    l.parent.Some? && l.parent.value.name == "ExternalInterface"
    && ContainsIgnoreCase(Attribute(l.parent.value, "RefBaseClassPath").GetOr(""), "opcuaitem")
  }

  /** Pass 3: a named `Attribute` outside OPC UA items becomes a leaf under
      the `AML/` prefix, spaces in the name replaced by '_'. */
  function AttributeLeafAt(l: Located): Option<Node> {
    var e := l.element;
    var name := Attribute(e, "Name");
    if e.name != "Attribute" || BelongsToOpcUaItem(l) || IsNullOrWhiteSpace(name) then None
    else
      var dt := match DeclaredType(e) case Some(t) => t case None => "Double";
      Some(VariableLeaf(name.value, dt, "ns=2;s=AML/" + ReplaceChar(name.value, ' ', '_'), None, None))
  }

  /** The skip test of pass 3 picks out exactly the children of the
      interfaces pass 2 reads. */
  lemma SkipMatchesPassTwo(l: Located)
    ensures BelongsToOpcUaItem(l) <==> l.parent.Some? && IsOpcUaItem(l.parent.value)
  {
  }

  // ---------------------------------------------------------------- Parse

  /** The root of a parsed document: folder "MTP". */
  function DocumentRoot(children: seq<Node>): Node {
    FreshNode.(displayName := "MTP", browseName := "MTP", children := children)
  }

  /** The three passes' leaves over the document's elements `ds`, one pass
      after the other, each in document order. */
  function ParseLeaves(ds: seq<Located>): seq<Node> {
    FilterMap(ds, VariableLeafAt) + FilterMap(ds, ItemLeafAt) + FilterMap(ds, AttributeLeafAt)
  }

  function ParseSpec(doc: Element): Node {
    DocumentRoot(ParseLeaves(Descendants(doc)))
  }

  /** Pass 1 for one element. */
  method ReadVariable(l: Located) returns (leaf: Option<Node>)
    ensures leaf == VariableLeafAt(l)
  {
    leaf := None;
    var variable := l.element;
    if variable.name == "Variable" {
      var name := Attribute(variable, "Name").GetOr("Unknown");
      var dataType := Attribute(variable, "DataType").GetOr("Double");
      var ns := Attribute(variable, "NamespaceIndex").GetOr("2");
      var id := Attribute(variable, "NodeId").GetOr(name);
      leaf := Some(VariableLeaf(name, dataType, "ns=" + ns + ";s=" + id, None, None));
    }
  }

  /** Pass 2 for one interface, as the source writes it: a loop over the
      direct `Attribute` children that updates five locals. */
  method ReadOpcUaItem(ei: Element) returns (leaf: Node)
    ensures leaf == ItemLeaf(ei)
  {
    var eiName := Attribute(ei, "Name").GetOr("Item");
    var identifier := "";
    var dataType := "xs:string";
    var nsIdx := "2";
    var access: Option<byte> := None;
    var description: Option<string> := None;
    var i := 0;
    while i < |ei.children|
      invariant 0 <= i <= |ei.children|
      invariant ItemFields(identifier, dataType, nsIdx, access, description) == ItemFold(ei.children[..i])
    {
      var a := ei.children[i];
      assert ei.children[..i + 1][..i] == ei.children[..i];
      if a.name == "Attribute" {
        var aName := Attribute(a, "Name").GetOr("");
        var aDt := DeclaredType(a);
        var aVal := FirstChildValue(a.children, "Value");
        if EqualsIgnoreCase(aName, "identifier") && !IsNullOrWhiteSpace(aVal) {
          identifier := Trim(aVal.value);
          if !IsNullOrWhiteSpace(aDt) {
            dataType := aDt.value;
          }
        } else if EqualsIgnoreCase(aName, "namespace") && !IsNullOrWhiteSpace(aVal) {
          nsIdx := Trim(aVal.value);
        } else if EqualsIgnoreCase(aName, "datatype") && !IsNullOrWhiteSpace(aVal) {
          dataType := Trim(aVal.value);
        } else if EqualsIgnoreCase(aName, "access") && !IsNullOrWhiteSpace(aVal) {
          var acc := ByteTryParse(Trim(aVal.value));
          if acc.Some? {
            access := acc;
          }
        } else if EqualsIgnoreCase(aName, "description") {
          description := aVal;
        }
      }
      i := i + 1;
    }
    assert ei.children[..i] == ei.children;
    if IsBlank(identifier) {
      identifier := eiName;
    }
    leaf := VariableLeaf(eiName, dataType, identifier, access, description);
  }

  /** Pass 3 for one element. */
  method ReadAttribute(l: Located) returns (leaf: Option<Node>)
    ensures leaf == AttributeLeafAt(l)
  {
    leaf := None;
    var attr := l.element;
    var skip := false;
    if l.parent.Some? && l.parent.value.name == "ExternalInterface" {
      var rb := Attribute(l.parent.value, "RefBaseClassPath").GetOr("");
      skip := ContainsIgnoreCase(rb, "opcuaitem");
    }
    if attr.name == "Attribute" && !skip {
      var name := Attribute(attr, "Name");
      if !IsNullOrWhiteSpace(name) {
        var dt := match DeclaredType(attr) case Some(t) => t case None => "Double";
        var id := ReplaceChar(name.value, ' ', '_');
        leaf := Some(VariableLeaf(name.value, dt, "ns=2;s=AML/" + id, None, None));
      }
    }
  }

  /** Pass 1 of `Parse`: a leaf for every `Variable` element, in document order. */
  method AddVariableLeaves(root: MTPNode, ds: seq<Located>, ghost leafAt: Located -> Option<Node>)
    requires forall l {:trigger VariableLeafAt(l)} :: leafAt(l) == VariableLeafAt(l)
    modifies root`children
    ensures root.children == old(root.children) + FilterMap(ds, leafAt)
  {
    ghost var before := root.children;
    var i := 0;
    while i < |ds|
      invariant 0 <= i <= |ds|
      invariant root.children == before + FilterMap(ds[..i], leafAt)
    {
      FilterMapSnoc(ds[..i], ds[i], leafAt);
      assert ds[..i + 1] == ds[..i] + [ds[i]];
      assert leafAt(ds[i]) == VariableLeafAt(ds[i]);
      var leaf := ReadVariable(ds[i]);
      if leaf.Some? {
        root.AddChild(leaf.value);
      }
      i := i + 1;
    }
    assert ds[..i] == ds;
  }

  /** Pass 2 of `Parse`: a leaf for every OPC UA item interface, in document order. */
  method AddItemLeaves(root: MTPNode, ds: seq<Located>, ghost leafAt: Located -> Option<Node>)
    requires forall l {:trigger ItemLeafAt(l)} :: leafAt(l) == ItemLeafAt(l)
    modifies root`children
    ensures root.children == old(root.children) + FilterMap(ds, leafAt)
  {
    ghost var before := root.children;
    var i := 0;
    while i < |ds|
      invariant 0 <= i <= |ds|
      invariant root.children == before + FilterMap(ds[..i], leafAt)
    {
      FilterMapSnoc(ds[..i], ds[i], leafAt);
      assert ds[..i + 1] == ds[..i] + [ds[i]];
      var ei := ds[i].element;
      assert leafAt(ds[i]) == ItemLeafAt(ds[i]);
      if IsOpcUaItem(ei) {
        var leaf := ReadOpcUaItem(ei);
        root.AddChild(leaf);
      }
      i := i + 1;
    }
    assert ds[..i] == ds;
  }

  /** Pass 3 of `Parse`: a leaf for every named `Attribute` outside OPC UA items. */
  method AddAttributeLeaves(root: MTPNode, ds: seq<Located>, ghost leafAt: Located -> Option<Node>)
    requires forall l {:trigger AttributeLeafAt(l)} :: leafAt(l) == AttributeLeafAt(l)
    modifies root`children
    ensures root.children == old(root.children) + FilterMap(ds, leafAt)
  {
    ghost var before := root.children;
    var i := 0;
    while i < |ds|
      invariant 0 <= i <= |ds|
      invariant root.children == before + FilterMap(ds[..i], leafAt)
    {
      FilterMapSnoc(ds[..i], ds[i], leafAt);
      assert ds[..i + 1] == ds[..i] + [ds[i]];
      assert leafAt(ds[i]) == AttributeLeafAt(ds[i]);
      var leaf := ReadAttribute(ds[i]);
      if leaf.Some? {
        root.AddChild(leaf.value);
      }
      i := i + 1;
    }
    assert ds[..i] == ds;
  }

  // The passes are proved against ghost copies of their leaf functions,
  // linked to them by a quantifier that only an explicit mention of the leaf
  // function triggers: the verifier then looks inside a leaf function only at
  // the element a loop iteration handles.

  /** The body of `Parse` over the document's elements `ds`: the root folder
      "MTP", then the three passes, each appending to its children. */
  method ParseElements(ds: seq<Located>, ghost variableAt: Located -> Option<Node>,
                       ghost itemAt: Located -> Option<Node>, ghost attributeAt: Located -> Option<Node>)
    returns (tree: Node)
    requires forall l {:trigger VariableLeafAt(l)} :: variableAt(l) == VariableLeafAt(l)
    requires forall l {:trigger ItemLeafAt(l)} :: itemAt(l) == ItemLeafAt(l)
    requires forall l {:trigger AttributeLeafAt(l)} :: attributeAt(l) == AttributeLeafAt(l)
    ensures tree == DocumentRoot(FilterMap(ds, variableAt) + FilterMap(ds, itemAt) + FilterMap(ds, attributeAt))
  {
    var root := new MTPNode.Folder("MTP", "MTP");
    AddVariableLeaves(root, ds, variableAt);
    AddItemLeaves(root, ds, itemAt);
    AddAttributeLeaves(root, ds, attributeAt);
    tree := root.Snapshot();
  }

  /** `Parse` after `XDocument.Parse`, which gives the document's elements. */
  method Parse(doc: Element) returns (tree: Node)
    ensures tree == ParseSpec(doc)
  {
    tree := ParseElements(Descendants(doc), VariableLeafAt, ItemLeafAt, AttributeLeafAt);
  }

  /** The parsed tree is one folder of childless Variable leaves, and every
      element that a pass selects contributes exactly its own leaf. */
  lemma ParseIsFlat(doc: Element, k: int)
    requires 0 <= k < |ParseSpec(doc).children|
    ensures ParseSpec(doc).nodeClass == "Folder" && ParseSpec(doc).displayName == "MTP"
    ensures ParseSpec(doc).children[k].nodeClass == "Variable" && ParseSpec(doc).children[k].children == []
  {
    var ds := Descendants(doc);
    var c := ParseSpec(doc).children[k];
    assert c in ParseSpec(doc).children;
    if c in FilterMap(ds, VariableLeafAt) {
      FilterMapSound(ds, VariableLeafAt, c);
    } else if c in FilterMap(ds, ItemLeafAt) {
      FilterMapSound(ds, ItemLeafAt, c);
    } else {
      FilterMapSound(ds, AttributeLeafAt, c);
    }
  }

  /** No attribute is consumed twice: a direct `Attribute` child of an OPC UA
      item gives no fallback leaf, and the interface it belongs to occurs
      earlier in the walk, where pass 2 reads it. */
  lemma ItemAttributesNotDuplicated(doc: Element, k: int)
    requires 0 <= k < |Descendants(doc)|
    requires Descendants(doc)[k].parent.Some? && IsOpcUaItem(Descendants(doc)[k].parent.value)
    ensures AttributeLeafAt(Descendants(doc)[k]) == None
    ensures exists m :: 0 <= m < k && ItemLeafAt(Descendants(doc)[m]).Some?
                        && Descendants(doc)[k].element in Descendants(doc)[m].element.children
  {
    WalkParents(doc, None, k);
    var m :| 0 <= m < k && Descendants(doc)[k].parent == Some(Descendants(doc)[m].element)
             && Descendants(doc)[k].element in Descendants(doc)[m].element.children;
    assert ItemLeafAt(Descendants(doc)[m]).Some?;
  }

  /** A lone `<Variable Name="Temp"/>` gives the leaf `ns=2;s=Temp` of type Double. */
  lemma VariableDefaultsExample()
    ensures ParseSpec(Element("Variable", map["Name" := "Temp"], [], "")).children
            == [VariableLeaf("Temp", "Double", "ns=2;s=Temp", None, None)]
  {
    var e := Element("Variable", map["Name" := "Temp"], [], "");
    var ds := Descendants(e);
    assert ds == [Located(e, None)];
    assert "ns=" + "2" + ";s=" + "Temp" == "ns=2;s=Temp";
    assert VariableLeafAt(ds[0]) == Some(VariableLeaf("Temp", "Double", "ns=2;s=Temp", None, None));
    assert FilterMap(ds, VariableLeafAt) == [VariableLeaf("Temp", "Double", "ns=2;s=Temp", None, None)];
    assert FilterMap(ds, ItemLeafAt) == [];
    assert FilterMap(ds, AttributeLeafAt) == [];
  }

  // ---------------------------------------------------------------- archives

  predicate IsDocumentEntry(fullName: string) {
    EndsWithIgnoreCase(fullName, ".aml") || EndsWithIgnoreCase(fullName, ".xml")
  }

  predicate IsBrokenDocument(e: ArchiveEntry) {
    IsDocumentEntry(e.fullName) && e.content.None?
  }

  /** The leaves an entry contributes once it has parsed. */
  function EntryLeaves(e: ArchiveEntry): seq<Node> {
    if IsDocumentEntry(e.fullName) && e.content.Some? then ParseSpec(e.content.value).children else []
  }

  /** The leaves of the entries, in entry order. */
  function ArchiveLeaves(es: seq<ArchiveEntry>): seq<Node> {
    FlatMap(es, EntryLeaves)
  }

  /** The index of the first document entry that does not parse, if any. */
  function FirstBroken(es: seq<ArchiveEntry>): (r: Option<nat>)
    ensures r.None? <==> forall i :: 0 <= i < |es| ==> !IsBrokenDocument(es[i])
    ensures r.Some? ==> r.value < |es| && IsBrokenDocument(es[r.value])
                        && forall j :: 0 <= j < r.value ==> !IsBrokenDocument(es[j])
  {
    if es == [] then None
    else if IsBrokenDocument(es[0]) then Some(0)
    else match FirstBroken(es[1..])
         case None => None
         case Some(k) => Some(k + 1)
  }

  function ArchiveRoot(path: string, children: seq<Node>): Node {
    FreshNode.(displayName := GetFileName(path), browseName := "MTP", children := children)
  }

  /** All or nothing: the first document entry that does not parse fails the
      whole archive; otherwise the root holds every entry's leaves. */
  function ArchiveSpec(path: string, es: seq<ArchiveEntry>): Result<Node, ParseError> {
    match FirstBroken(es)
    case Some(k) => Failure(InvalidDocument(es[k].fullName))
    case None => Success(ArchiveRoot(path, ArchiveLeaves(es)))
  }

  /** Every child of an archive root is a childless Variable leaf taken from
      one of its document entries. */
  lemma {:induction false} ArchiveLeavesAreLeaves(es: seq<ArchiveEntry>, k: int)
    requires 0 <= k < |ArchiveLeaves(es)|
    ensures ArchiveLeaves(es)[k].nodeClass == "Variable" && ArchiveLeaves(es)[k].children == []
    ensures exists i :: 0 <= i < |es| && ArchiveLeaves(es)[k] in EntryLeaves(es[i])
  {
    var init := es[..|es| - 1];
    var last := es[|es| - 1];
    assert ArchiveLeaves(es) == ArchiveLeaves(init) + EntryLeaves(last);
    if k < |ArchiveLeaves(init)| {
      ArchiveLeavesAreLeaves(init, k);
      assert ArchiveLeaves(es)[k] == ArchiveLeaves(init)[k];
      var i :| 0 <= i < |init| && ArchiveLeaves(init)[k] in EntryLeaves(init[i]);
      assert init[i] == es[i];
    } else {
      var j := k - |ArchiveLeaves(init)|;
      assert ArchiveLeaves(es)[k] == EntryLeaves(last)[j];
      ParseIsFlat(last.content.value, j);
    }
  }

  /** Appends `cs` to the root's children, one by one. */
  method AddAll(root: MTPNode, cs: seq<Node>)
    modifies root`children
    ensures root.children == old(root.children) + cs
  {
    ghost var before := root.children;
    var j := 0;
    while j < |cs|
      invariant 0 <= j <= |cs|
      invariant root.children == before + cs[..j]
    {
      assert cs[..j + 1] == cs[..j] + [cs[j]];
      root.AddChild(cs[j]);
      j := j + 1;
    }
    assert cs[..j] == cs;
  }

  /** One entry that is not a broken document: a document entry is parsed
      and gives the children of its root; any other entry gives nothing. */
  method ReadEntry(entry: ArchiveEntry, ghost leavesOf: ArchiveEntry -> seq<Node>) returns (leaves: seq<Node>)
    requires forall e {:trigger EntryLeaves(e)} :: leavesOf(e) == EntryLeaves(e)
    requires !IsBrokenDocument(entry)
    ensures leaves == leavesOf(entry)
  {
    assert leavesOf(entry) == EntryLeaves(entry);
    leaves := [];
    if IsDocumentEntry(entry.fullName) {
      var subRoot := Parse(entry.content.value);
      leaves := subRoot.children;
    }
  }

  /** The entry loop of `ParseAmlxArchive`: each `.aml`/`.xml` entry is
      parsed and its leaves appended; the first that does not parse stops it. */
  method AddEntryLeaves(root: MTPNode, entries: seq<ArchiveEntry>, ghost leavesOf: ArchiveEntry -> seq<Node>)
    returns (err: Option<ParseError>)
    requires forall e {:trigger EntryLeaves(e)} :: leavesOf(e) == EntryLeaves(e)
    modifies root`children
    ensures FirstBroken(entries).Some? ==> err == Some(InvalidDocument(entries[FirstBroken(entries).value].fullName))
    ensures FirstBroken(entries).None? ==> err == None && root.children == old(root.children) + FlatMap(entries, leavesOf)
  {
    ghost var before := root.children;
    var i := 0;
    while i < |entries|
      invariant 0 <= i <= |entries|
      invariant forall j :: 0 <= j < i ==> !IsBrokenDocument(entries[j])
      invariant root.children == before + FlatMap(entries[..i], leavesOf)
    {
      var entry := entries[i];
      FlatMapSnoc(entries[..i], entry, leavesOf);
      assert entries[..i + 1] == entries[..i] + [entry];
      if IsDocumentEntry(entry.fullName) && entry.content.None? {
        assert IsBrokenDocument(entries[i]);
        return Some(InvalidDocument(entry.fullName));
      }
      var leaves := ReadEntry(entry, leavesOf);
      AddAll(root, leaves);
      i := i + 1;
    }
    assert entries[..i] == entries;
    return None;
  }

  /** The body of `ParseAmlxArchive` over the archive's entries. */
  method CollectArchive(path: string, entries: seq<ArchiveEntry>, ghost leavesOf: ArchiveEntry -> seq<Node>)
    returns (r: Result<Node, ParseError>)
    requires forall e {:trigger EntryLeaves(e)} :: leavesOf(e) == EntryLeaves(e)
    ensures r == match FirstBroken(entries)
                 case Some(k) => Failure(InvalidDocument(entries[k].fullName))
                 case None => Success(ArchiveRoot(path, FlatMap(entries, leavesOf)))
  {
    var root := new MTPNode.Folder(GetFileName(path), "MTP");
    var err := AddEntryLeaves(root, entries, leavesOf);
    if err.Some? {
      return Failure(err.value);
    }
    assert root.children == FlatMap(entries, leavesOf);
    return Success(root.Snapshot());
  }

  /** `ParseAmlxArchive`: a folder named after the file with browse name
      "MTP", holding the leaves of every `.aml`/`.xml` entry in entry order. */
  method ParseArchive(path: string, entries: seq<ArchiveEntry>) returns (r: Result<Node, ParseError>)
    ensures r == ArchiveSpec(path, entries)
  {
    r := CollectArchive(path, entries, EntryLeaves);
  }

  // ---------------------------------------------------------------- ParseFile

  /** `ParseFile`: the lowered extension picks the reader. `document` is
      the file read as XML and `archive` the file read as a zip; an
      unsupported extension fails before either is looked at. */
  function ParseFileSpec(path: string, document: Option<Element>, archive: Option<seq<ArchiveEntry>>)
    : Result<Node, ParseError>
  {
    var ext := Lower(GetExtension(path));
    if ext == ".mtp" || ext == ".amlx" then
      (if archive.None? then Failure(InvalidArchive(path)) else ArchiveSpec(path, archive.value))
    else if ext == ".aml" || ext == ".xml" then
      (if document.None? then Failure(InvalidDocument(path)) else Success(ParseSpec(document.value)))
    else Failure(Unsupported(ext))
  }

  /** Only the four known extensions, in any case, can succeed, and only
      with the reading they need; any other extension is reported in lower case. */
  lemma ParseFileOutcome(path: string, document: Option<Element>, archive: Option<seq<ArchiveEntry>>)
    ensures var ext := Lower(GetExtension(path));
            var r := ParseFileSpec(path, document, archive);
            && (r.Success? ==> ((ext == ".mtp" || ext == ".amlx") && archive.Some?)
                               || ((ext == ".aml" || ext == ".xml") && document.Some?))
            && (r.Failure? && r.error.Unsupported? ==>
                  r.error.extension == ext && Lower(r.error.extension) == r.error.extension)
            && (ext !in {".mtp", ".amlx", ".aml", ".xml"} ==> r == Failure(Unsupported(ext)))
  {
    LowerIdempotent(GetExtension(path));
  }

  method ParseFile(path: string, document: Option<Element>, archive: Option<seq<ArchiveEntry>>)
    returns (r: Result<Node, ParseError>)
    ensures r == ParseFileSpec(path, document, archive)
  {
    var ext := Lower(GetExtension(path));
    if ext == ".mtp" || ext == ".amlx" {
      if archive.None? {
        return Failure(InvalidArchive(path));
      }
      r := ParseArchive(path, archive.value);
      return;
    }
    if ext == ".aml" || ext == ".xml" {
      if document.None? {
        return Failure(InvalidDocument(path));
      }
      var tree := Parse(document.value);
      return Success(tree);
    }
    return Failure(Unsupported(ext));
  }
}
