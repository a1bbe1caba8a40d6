# MTP Simulator: from descriptor to live tag values

This project is a Dafny model of the MTP Simulator, a simulator for Module Type Package (MTP) descriptors. The simulator reads an AutomationML descriptor, given as XML or as a zip archive. It turns the descriptor into a flat tree of tag variables and serves those tags from an OPC UA server. A simulation engine drives the numeric tags. Values written from outside are persisted in an override store. The store's values take precedence over the generated ones. A web host lists the tags and forwards value changes to the browser UI. A data fetcher can copy tag values from a remote OPC UA server through an OPC UA client.

The model has one module per component:

- `Parser`: the three extraction passes and the archive flattening.
- `Models`: the node tree and the variable record.
- `OpcUaServer`: pure server helpers. These are the tag-key normaliser, the endpoint normaliser, the data-type and default-value tables, and the access mapping.
- `NodeManager`: the variable table built from the tree.
- `Server`: the override resolver and the write paths.
- `Simulation`: registration, the tick, and the start/stop state.
- `Store`: the override store.
- `Web`: the snapshot and the HTTP endpoints.
- `OpcUaClient`: the OPC UA client.
- `Fetcher`: the data fetcher.
- `Browser`: the UI's node-browser helpers.

`Text`, `NodeIds`, `Values`, `Xml`, `Seqs` and `Wrappers` hold the shared string, regular-expression, value, XML and sequence machinery.

State the source changes in place is a `class`: the node under construction, the variable table, the server, the engine, the store, the snapshot provider, the web host, the client, the fetcher and the UI index. Each method's `ensures` states the whole new state of what it changes, through a specification function where the change is more than an assignment, and lemmas prove what the code promises about those functions. Where the code loops, the model loops too, with invariants: the parser's passes, the snapshot walk, the engine's registration and tick, the client's result filtering, the fetcher's poll and the UI index walk.

Three behaviours of the code that a caller may not expect, which the model keeps:

- `Simulation.SimulationEngine.Start` does not stop a running loop first. It overwrites the fields, so a second start leaks the first loop (`Simulation.RestartLeaksLoop`).
- `Simulation.SimulationEngine.Initialize` adds to the registrations rather than replacing them.
- The override resolver, `UpdateValue` and `TryWriteValue` use the key exactly as given. Only `TryGetValue` normalises its key. `NodeManager.RawIdIsNotAKey` shows the result: a bare descriptor id such as `R0001` is not a key of the variable table.

## Model

| member | source | states |
|---|---|---|
| Models.LeafPreorder | MTPSimulator.App/Core/MTPParser.cs:43-50 | a variable leaf has no children, so every traversal meets it exactly once and nothing below it |
| Models.Preorder | MTPSimulator.App/Core/SimulationEngine.cs:68-76 | the enumeration starts with the node itself |
| Models.PreorderMembers | MTPSimulator.App/Core/SimulationEngine.cs:68-76 | a node is enumerated exactly when it is the root or is enumerated under one of its children |
| Models.PreorderAllMembers | MTPSimulator.App/Core/SimulationEngine.cs:71-75 | the enumeration of a child list holds exactly the nodes of each child's enumeration |
| Models.MTPNode.constructor | MTPSimulator.App/Models/MTPNode.cs:7-12 | a fresh node has empty names, class "Folder", no type, id, access or description, and no children |
| Models.MTPNode.Folder | MTPSimulator.App/Core/MTPParser.cs:33 | a folder built with initialisers has the given names and all other properties at their defaults |
| Models.MTPNode.AddChild | MTPSimulator.App/Models/MTPNode.cs:12 | `Children.Add` appends the child at the end and changes nothing else |
| Xml.FirstChildValueSpec | MTPSimulator.App/Core/MTPParser.cs:72 | the first `Value` child's text is found exactly when such a child exists, and it is the first one's |
| Xml.Walk | MTPSimulator.App/Core/MTPParser.cs:36 | `Descendants()` starts with the element itself, paired with its parent |
| Xml.WalkParents | MTPSimulator.App/Core/MTPParser.cs:119 | every element met is paired with its true parent, an element met before it |
| Xml.WalkAllParents | MTPSimulator.App/Core/MTPParser.cs:119 | the elements of a child list are paired with that list's parent or with an element of the list's walk |
| Values.ByteTryParseRoundTrip | MTPSimulator.App/Core/MTPParser.cs:89 | the decimal text of every byte 0..255 parses back to that byte |
| Values.ByteTryParseRejectsLarge | MTPSimulator.App/Core/MTPParser.cs:89 | the decimal text of a number above 255 does not parse as a byte |
| Values.ByteTryParseRejectsBlank | MTPSimulator.App/Core/MTPParser.cs:87-89 | blank text does not parse as a byte |
| Text.TrimWithSpec | MTPSimulator.App/Core/OPCUAServer.cs:620 | the trim is no longer than the input, neither starts nor ends with white space, and is empty exactly when the input is all white space |
| Text.TrimWithSlice | MTPSimulator.App/Core/OPCUAServer.cs:620 | the trim is a contiguous slice of the input, and everything cut off before and after it is white space |
| Text.TrimsAgree | MTPSimulator.App/UI/src/pages/NodeBrowser.tsx:43 | on text without U+0085 and U+FEFF, JavaScript's `trim` and .NET's `Trim` give the same result |
| NodeIds.MatchNsFormSound | MTPSimulator.App/Core/OPCUAServer.cs:623 | a match of `^NS(\d+)\|[^\|]*\|(.*)$` splits the key into `NS`, the digits, a middle without `\|`, and the tail |
| NodeIds.MatchNsFormComplete | MTPSimulator.App/Core/OPCUAServer.cs:623 | every key of that shape matches, with the digits and tail as its groups |
| NodeIds.RewriteIsNormal | MTPSimulator.App/Core/OPCUAServer.cs:624 | the rewrite `ns=$1;s=$2` of a match starts with `ns=` |
| NodeIds.NormalFormDoesNotMatch | MTPSimulator.App/Core/OPCUAServer.cs:621-626 | a key already starting with `ns=` does not match the NS form, so its rewrite is itself |
| NodeIds.MatchNeedsNsPrefix | MTPSimulator.App/Core/OPCUAServer.cs:621 | the `StartsWith("NS")` guard skips only keys the pattern rejects anyway |
| NodeIds.RewriteTrimmed | MTPSimulator.App/Core/OPCUAServer.cs:620-624 | rewriting a trimmed key that matches gives a trimmed key |
| NodeIds.MatchDialectsAgree | MTPSimulator.App/UI/src/pages/NodeBrowser.tsx:46 | on text without line terminators other than LF, and not ending in LF, the JavaScript and .NET engines match the pattern alike |
| Parser.GetFileNameSuffix | MTPSimulator.App/Core/MTPParser.cs:148 | `Path.GetFileName` is the suffix of the path after its last separator |
| Parser.GetFileNameNoSeparator | MTPSimulator.App/Core/MTPParser.cs:148 | the file name holds no directory separator |
| Parser.LastDotSpec | MTPSimulator.App/Core/MTPParser.cs:16 | the last dot is a dot with no dot after it, and there is none exactly when the text has no dot |
| Parser.ExtensionOfSpec | MTPSimulator.App/Core/MTPParser.cs:16 | a non-empty extension is a suffix of the name that starts with its last dot, and it is empty exactly when there is no dot or the dot ends the name |
| Parser.ReadVariable | MTPSimulator.App/Core/MTPParser.cs:36-51 | a `Variable` element gives the leaf `ns=<ns>;s=<id>` with defaults "Unknown", "Double", "2" and the name; other elements give nothing |
| Parser.ReadOpcUaItem | MTPSimulator.App/Core/MTPParser.cs:59-113 | the attribute loop over an OPC UA item's direct children gives the item's leaf, with the identifier or else the interface name as NodeId |
| Parser.NamesExclusive | MTPSimulator.App/Core/MTPParser.cs:74-94 | an attribute takes at most one branch of the else-if chain |
| Parser.ItemIdentifierLastWins | MTPSimulator.App/Core/MTPParser.cs:74-78 | the identifier is the trimmed value of the last Identifier attribute with a non-blank value, or "" |
| Parser.ItemDataTypeLastWins | MTPSimulator.App/Core/MTPParser.cs:63-86 | the data type is the last one set by an Identifier's declared type or a DataType value, or "xs:string" |
| Parser.ItemAccessLastWins | MTPSimulator.App/Core/MTPParser.cs:65-90 | access is the last Access value that parses as a byte; an unparsable one leaves it as it was |
| Parser.ItemDescriptionLastWins | MTPSimulator.App/Core/MTPParser.cs:66-94 | the description is the value of the last Description attribute, even a missing one |
| Parser.ItemIdentifierNonBlank | MTPSimulator.App/Core/MTPParser.cs:74-101 | an identifier that was set is never blank, so the name fallback applies only when none was set |
| Parser.NamespaceIsIgnored | MTPSimulator.App/Core/MTPParser.cs:64-110 | appending a Namespace attribute does not change the item's leaf |
| Parser.ReadAttribute | MTPSimulator.App/Core/MTPParser.cs:117-140 | a named `Attribute` outside OPC UA items gives the leaf `ns=2;s=AML/<name with '_' for ' '>`, typed AttributeDataType, else DataType, else "Double" |
| Parser.SkipMatchesPassTwo | MTPSimulator.App/Core/MTPParser.cs:119-123 | the fallback skips exactly the attributes whose parent is an OPC UA item |
| Parser.AddVariableLeaves | MTPSimulator.App/Core/MTPParser.cs:36-51 | pass 1 appends the leaf of every `Variable` element, in document order |
| Parser.AddItemLeaves | MTPSimulator.App/Core/MTPParser.cs:54-114 | pass 2 appends the leaf of every OPC UA item interface, in document order |
| Parser.AddAttributeLeaves | MTPSimulator.App/Core/MTPParser.cs:117-141 | pass 3 appends the leaf of every named attribute outside OPC UA items, in document order |
| Parser.ParseElements | MTPSimulator.App/Core/MTPParser.cs:33-143 | the root folder "MTP" holds all pass-1 leaves, then all pass-2 leaves, then all pass-3 leaves, with no deduplication |
| Parser.Parse | MTPSimulator.App/Core/MTPParser.cs:30-144 | parsing a document gives the three-pass tree of its descendants |
| Parser.ParseIsFlat | MTPSimulator.App/Core/MTPParser.cs:33-143 | the parsed tree is a folder "MTP" whose children are all childless Variables |
| Parser.ItemAttributesNotDuplicated | MTPSimulator.App/Core/MTPParser.cs:68-123 | an attribute of an OPC UA item gives no fallback leaf, and its item gave a pass-2 leaf before it |
| Parser.VariableDefaultsExample | MTPSimulator.App/Core/MTPParser.cs:38-49 | `<Variable Name="Temp"/>` gives the one leaf `ns=2;s=Temp` of type Double |
| Parser.FirstBroken | MTPSimulator.App/Core/MTPParser.cs:152-157 | finds a document entry that does not parse, the first of them, exactly when there is one |
| Parser.ArchiveLeavesAreLeaves | MTPSimulator.App/Core/MTPParser.cs:152-162 | every child of an archive root is a childless Variable taken from one of the entries |
| Parser.AddAll | MTPSimulator.App/Core/MTPParser.cs:158-161 | the children of a sub-root are appended in order |
| Parser.ReadEntry | MTPSimulator.App/Core/MTPParser.cs:154-157 | an entry that parses contributes the children of its parsed root |
| Parser.AddEntryLeaves | MTPSimulator.App/Core/MTPParser.cs:152-162 | the entry loop appends the leaves of every `.aml`/`.xml` entry in entry order, or stops with the first entry that does not parse |
| Parser.CollectArchive | MTPSimulator.App/Core/MTPParser.cs:146-165 | the archive root is named after the file, with BrowseName "MTP", and holds the entries' leaves; an entry failure fails the whole parse |
| Parser.ParseArchive | MTPSimulator.App/Core/MTPParser.cs:146-165 | reading an archive gives the all-or-nothing archive result |
| Parser.ParseFileOutcome | MTPSimulator.App/Core/MTPParser.cs:16-27 | only the four extensions, in any case, can succeed: `.mtp`/`.amlx` through the archive, `.aml`/`.xml` through the document; any other gives NotSupported with the lower-cased extension |
| Parser.ParseFile | MTPSimulator.App/Core/MTPParser.cs:14-28 | the dispatch on the lower-cased extension |
| OpcUaServer.NormalizeKeyIsNormal | MTPSimulator.App/Core/OPCUAServer.cs:619-626 | every key starts with `ns=`, ignoring case |
| OpcUaServer.NormalizeKeyOfNormalForm | MTPSimulator.App/Core/OPCUAServer.cs:620-626 | an id whose trim starts with `ns=` is the trim itself |
| OpcUaServer.NormalizeKeyOfNsForm | MTPSimulator.App/Core/OPCUAServer.cs:621-624 | a trimmed `NS<d>\|x\|tail` becomes `ns=<d>;s=tail` |
| OpcUaServer.NormalizeKeyOfBareId | MTPSimulator.App/Core/OPCUAServer.cs:620-626 | any other id gets `ns=2;s=` in front of its trim; a null id gives `ns=2;s=` |
| OpcUaServer.NormalizeKeyOfToken | MTPSimulator.App/Core/OPCUAServer.cs:626 | `R0001` becomes `ns=2;s=R0001` |
| OpcUaServer.NormalizeKeyOfNsExample | MTPSimulator.App/Core/OPCUAServer.cs:619-624 | `NS2\|String\|R0001` becomes `ns=2;s=R0001` |
| OpcUaServer.NormalizeKeyOfNormalExample | MTPSimulator.App/Core/OPCUAServer.cs:626 | `ns=2;s=R0001` stays as it is |
| OpcUaServer.NormalizeKeyOfPaddedToken | MTPSimulator.App/Core/OPCUAServer.cs:620-626 | white space around `R0001` is trimmed before the namespace is added |
| OpcUaServer.NormalizeKeyTrimmed | MTPSimulator.App/Core/OPCUAServer.cs:619-626 | a key has no white space at either end |
| OpcUaServer.NormalizeKeyIdempotent | MTPSimulator.App/Core/OPCUAServer.cs:619-626 | normalising a key again gives the same key |
| OpcUaServer.NormalizeEndpointSpec | MTPSimulator.App/Core/OPCUAServer.cs:176-183 | the result always has the scheme `opc.tcp://`: it is the trimmed input when that has the scheme, else the scheme plus the trimmed input |
| OpcUaServer.NormalizeEndpointTrimmed | MTPSimulator.App/Core/OPCUAServer.cs:178 | the endpoint has no white space at either end |
| OpcUaServer.NormalizeEndpointIdempotent | MTPSimulator.App/Core/OPCUAServer.cs:176-183 | normalising an endpoint again changes nothing |
| OpcUaServer.StripPrefix | MTPSimulator.App/Core/OPCUAServer.cs:490-491 | a name with the prefix (ignoring case) loses exactly that prefix; any other name is kept |
| OpcUaServer.StripPrefixLower | MTPSimulator.App/Core/OPCUAServer.cs:490-493 | stripping ignoring case commutes with lower-casing |
| OpcUaServer.GetDataTypeIdIgnoresCase | MTPSimulator.App/Core/OPCUAServer.cs:490-493 | type names match ignoring case, prefixes included |
| OpcUaServer.GetDataTypeIdIgnoresSpace | MTPSimulator.App/Core/OPCUAServer.cs:486-487 | white space around a type name does not matter |
| OpcUaServer.GetDataTypeIdStripsXs | MTPSimulator.App/Core/OPCUAServer.cs:490 | an `xs:` prefix is ignored |
| OpcUaServer.GetDataTypeIdStripsXsd | MTPSimulator.App/Core/OPCUAServer.cs:491 | an `xsd:` prefix is ignored too, checked after `xs:` |
| OpcUaServer.DefaultOfNameAgrees | MTPSimulator.App/Core/OPCUAServer.cs:493-587 | every default the value table lists has the type the type table gives the same name |
| OpcUaServer.GetDefaultValueAgrees | MTPSimulator.App/Core/OPCUAServer.cs:484-587 | where the value table lists the name and no `xsd:` prefix is involved, the default value has the variable's data type |
| OpcUaServer.DefaultOfTimeIsDouble | MTPSimulator.App/Core/OPCUAServer.cs:535-585 | the tables disagree on `time`: the variable is DateTime but its default is the double 0.0 |
| OpcUaServer.TimeTableEntries | MTPSimulator.App/Core/OPCUAServer.cs:537-582 | `time` is in the type table and not in the value table |
| OpcUaServer.MapAccess | MTPSimulator.App/Core/OPCUAServer.cs:589-598 | only access 2 denies reading and only access 1 denies writing; the level is CurrentRead, CurrentWrite or both |
| NodeManager.StringNodeId | MTPSimulator.App/Core/OPCUAServer.cs:411-419 | a string NodeId in namespace 2 prints in normal form, seven characters longer than its identifier |
| NodeManager.RecordOfNames | MTPSimulator.App/Core/OPCUAServer.cs:429-443 | each name of the variable is one of the descriptor's two names, and neither is blank unless both of the descriptor's names are |
| NodeManager.InsertAllConcat | MTPSimulator.App/Core/OPCUAServer.cs:446 | registering two lists in a row is registering their concatenation |
| NodeManager.RegisterIsInsertAll | MTPSimulator.App/Core/OPCUAServer.cs:384-482 | the recursive walk registers exactly the reached variables, in order |
| NodeManager.RegisterAllIsInsertAll | MTPSimulator.App/Core/OPCUAServer.cs:391-480 | the same for a child list |
| NodeManager.ReachedAreVariables | MTPSimulator.App/Core/OPCUAServer.cs:398-461 | every registered node is a Variable of the tree; a Variable's children are not visited |
| NodeManager.ReachedAllAreVariables | MTPSimulator.App/Core/OPCUAServer.cs:391-480 | the same for a child list |
| NodeManager.ReachedFlat | MTPSimulator.App/Core/OPCUAServer.cs:387-396 | a flat list of Variables under an MTP folder is registered one by one, directly in the MTP folder |
| NodeManager.IdsOf | MTPSimulator.App/Core/OPCUAServer.cs:401-420 | one id per registered variable |
| NodeManager.InsertAllKeys | MTPSimulator.App/Core/OPCUAServer.cs:446 | the table after registration holds exactly the earlier keys and the ids of the registered variables |
| NodeManager.InsertAllSelfKeyed | MTPSimulator.App/Core/OPCUAServer.cs:446 | every record is filed under the text of its own NodeId |
| NodeManager.FixedIdRegistered | MTPSimulator.App/Core/OPCUAServer.cs:402-446 | a variable with a non-blank NodeId, DisplayName or BrowseName is registered under the id taken from it |
| NodeManager.IdAt | MTPSimulator.App/Core/OPCUAServer.cs:401-420 | such a variable's id does not depend on how many GUIDs were drawn before it |
| NodeManager.RawIdIsNotAKey | MTPSimulator.App/Core/OPCUAServer.cs:600-614 | a raw id that does not print as itself once parsed is not a table key, so `UpdateValue` with it does nothing |
| NodeManager.RawIdIsReadable | MTPSimulator.App/Core/OPCUAServer.cs:616-634 | a read with that raw id does find the variable, through the normalised key |
| NodeManager.WithValue | MTPSimulator.App/Core/OPCUAServer.cs:600-614 | an update changes only the value of an existing key; an absent key changes nothing |
| NodeManager.WithValueSelfKeyed | MTPSimulator.App/Core/OPCUAServer.cs:605 | updating a value keeps every record under its own NodeId |
| NodeManager.WriteThenRead | MTPSimulator.App/Core/OPCUAServer.cs:600-634 | a value written under the normalised key of an id is what a read of the id, or of its normalised text, gives |
| NodeManager.SimulatorNodeManager.constructor | MTPSimulator.App/Core/OPCUAServer.cs:245-319 | creating the address space registers the tree's variables in the MTP folder, or none without a tree |
| NodeManager.SimulatorNodeManager.AddNodesFromMtp | MTPSimulator.App/Core/OPCUAServer.cs:384-482 | the table becomes the registration of the node's reached variables |
| NodeManager.SimulatorNodeManager.AddChildren | MTPSimulator.App/Core/OPCUAServer.cs:391-480 | the same for each child in turn |
| NodeManager.SimulatorNodeManager.UpdateValue | MTPSimulator.App/Core/OPCUAServer.cs:600-614 | the variable under the key, taken as given, gets the value |
| NodeManager.SimulatorNodeManager.TryGetValue | MTPSimulator.App/Core/OPCUAServer.cs:616-634 | found exactly when the normalised key is in the table, with that variable's value |
| NodeManager.SimulatorNodeManager.RefreshAddressSpace | MTPSimulator.App/Core/OPCUAServer.cs:636-680 | the table is cleared, then refilled from the tree when the MTP folder and a tree exist |
| NodeManager.SimulatorNodeManager.OnSimpleWriteValue | MTPSimulator.App/Core/OPCUAServer.cs:453-460 | a client write sets the variable's value and raises ExternalWrite with its NodeId and the value |
| Server.Resolved | MTPSimulator.App/Core/OPCUAServer.cs:126-136 | the published value is the stored override when its text parses as a number, else the simulated value |
| Server.OverrideWins | MTPSimulator.App/Core/OPCUAServer.cs:126-131 | once a value whose text parses is stored for a key, that key publishes the stored number |
| Server.OverrideIsPerKey | MTPSimulator.App/Core/OPCUAServer.cs:126 | storing under one key does not change what another key publishes |
| Server.UnparsableOverrideIgnored | MTPSimulator.App/Core/OPCUAServer.cs:127-136 | a stored text that does not parse leaves the simulated value |
| Server.OPCUAServer.constructor | MTPSimulator.App/Core/OPCUAServer.cs:26-29 | a new server has no node manager, no tree and no events |
| Server.OPCUAServer.NodeManagerReady | MTPSimulator.App/Core/OPCUAServer.cs:221-227 | the server keeps the node manager the stack created |
| Server.OPCUAServer.LoadNodes | MTPSimulator.App/Core/OPCUAServer.cs:31-41 | the tree is kept, its simulated variables are registered, and a running node manager refreshes its table |
| Server.OPCUAServer.OnSimulatedValue | MTPSimulator.App/Core/OPCUAServer.cs:121-139 | a simulated value publishes the resolved value to the variable under the raw key and raises ValueChanged; a failing store does neither |
| Server.OPCUAServer.OnExternalWrite | MTPSimulator.App/Core/OPCUAServer.cs:140-143 | an external write upserts the value, then raises ValueChanged and ExternalValueWritten once each |
| Server.OPCUAServer.ClientWrite | MTPSimulator.App/Core/OPCUAServer.cs:453-460 | a client write changes the variable, then stores and notifies as above |
| Server.OPCUAServer.TryWriteValue | MTPSimulator.App/Core/OPCUAServer.cs:185-199 | false with no effect without a node manager; otherwise the variable changes, then the store and ValueChanged, and true; a failing store gives false |
| Server.OPCUAServer.TryReadValue | MTPSimulator.App/Core/OPCUAServer.cs:201-206 | false without a node manager, else the normalised read |
| Simulation.RegisteredSpec | MTPSimulator.App/Core/SimulationEngine.cs:26-35 | registration adds the key `NodeId ?? DisplayName` of every Variable typed exactly "Double" with 0.0, and keeps every other key and its value |
| Simulation.Emitted | MTPSimulator.App/Core/SimulationEngine.cs:47-54 | one notification per key |
| Simulation.TickedSpec | MTPSimulator.App/Core/SimulationEngine.cs:49-52 | a tick gives each key the value generated for it |
| Simulation.TickedKeys | MTPSimulator.App/Core/SimulationEngine.cs:47-52 | a tick keeps the set of keys |
| Simulation.EmittedAt | MTPSimulator.App/Core/SimulationEngine.cs:53 | the i-th notification carries the i-th key and its new value |
| Simulation.EmittedOncePerKey | MTPSimulator.App/Core/SimulationEngine.cs:47-54 | every registered key is notified exactly once per tick |
| Simulation.Started | MTPSimulator.App/Core/SimulationEngine.cs:37-59 | a start makes a new current loop and adds one running loop, cancelling nothing |
| Simulation.Stopped | MTPSimulator.App/Core/SimulationEngine.cs:61-66 | a stop cancels the current loop, if any, and clears the fields |
| Simulation.StopWhenIdle | MTPSimulator.App/Core/SimulationEngine.cs:63-65 | stopping an idle engine changes nothing |
| Simulation.RestartLeaksLoop | MTPSimulator.App/Core/SimulationEngine.cs:39-63 | starting twice and then stopping leaves one loop running that nothing can cancel |
| Simulation.SimulationEngine.constructor | MTPSimulator.App/Core/SimulationEngine.cs:21-24 | a new engine has no keys and no loop |
| Simulation.SimulationEngine.Initialize | MTPSimulator.App/Core/SimulationEngine.cs:26-35 | the loop over the preorder registers the simulated nodes |
| Simulation.SimulationEngine.Start | MTPSimulator.App/Core/SimulationEngine.cs:37-59 | the loop state becomes the started state |
| Simulation.SimulationEngine.Stop | MTPSimulator.App/Core/SimulationEngine.cs:61-66 | the loop state becomes the stopped state |
| Simulation.SimulationEngine.Tick | MTPSimulator.App/Core/SimulationEngine.cs:47-54 | one pass stores every key's new value and emits its notifications |
| Store.Upserted | MTPSimulator.App/Core/ValueStore.cs:26-34 | the key gets the text and every other key keeps its own; no other key appears |
| Store.UpsertReplaces | MTPSimulator.App/Core/ValueStore.cs:29 | a second upsert of the same key replaces the first |
| Store.UpsertsCommute | MTPSimulator.App/Core/ValueStore.cs:29 | upserts of different keys do not interfere |
| Store.ValueStore.constructor | MTPSimulator.App/Core/ValueStore.cs:11-24 | opening keeps the rows already in the database |
| Store.ValueStore.Upsert | MTPSimulator.App/Core/ValueStore.cs:26-34 | the table becomes the upserted table |
| Store.ValueStore.TryGet | MTPSimulator.App/Core/ValueStore.cs:36-44 | found exactly when the key has a row, with its text; otherwise (false, null) |
| Web.SnapshotSound | MTPSimulator.App/Core/WebHost.cs:129-151 | every snapshot entry is the entry of a Variable of the tree |
| Web.SnapshotComplete | MTPSimulator.App/Core/WebHost.cs:132-149 | every Variable of the tree, however deep and even below a Variable, has its entry |
| Web.SnapshotIdsAreSimulationKeys | MTPSimulator.App/Core/WebHost.cs:138 | the id the UI lists for a simulated variable is a key the simulation drives |
| Web.SnapshotOfNode | MTPSimulator.App/Core/WebHost.cs:134-147 | a node's snapshot is its own entry, then its children's |
| Web.SnapshotOfChildren | MTPSimulator.App/Core/WebHost.cs:146-147 | one more child appends that child's snapshot |
| Web.Walk | MTPSimulator.App/Core/WebHost.cs:132-148 | `Walk(n)` appends the node's snapshot to the list |
| Web.WalkChildren | MTPSimulator.App/Core/WebHost.cs:146-147 | the `foreach` appends the children's snapshots in order |
| Web.BuildSnapshot | MTPSimulator.App/Core/WebHost.cs:129-151 | the list is the tree's snapshot: one entry per Variable in preorder, with id `NodeId ?? DisplayName`, type or "", no value, access and description copied |
| Web.VariableSnapshotProvider.constructor | MTPSimulator.App/Core/WebHost.cs:168 | the snapshot starts empty |
| Web.VariableSnapshotProvider.Update | MTPSimulator.App/Core/WebHost.cs:169 | the new list replaces the old one wholesale |
| Web.WebHost.constructor | MTPSimulator.App/Core/WebHost.cs:21-24 | the host keeps the server and has broadcast nothing |
| Web.WebHost.PostWrite | MTPSimulator.App/Core/WebHost.cs:60-68 | success is TryWriteValue's result, writing a missing value as "": the variable takes the value when a manager exists, a success upserts its text into the store, raises one ValueChanged and broadcasts "value", and a failure leaves store, events and broadcasts as they were |
| Web.WebHost.PostUpload | MTPSimulator.App/Core/WebHost.cs:69-97 | a request that is not a form, or has no file or an empty one, is a BadRequest, and a file that does not parse (by the upload's extension) a failure; none of these touches the tree, the registrations, the variable table, its GUID counter, the snapshot or the hub. Otherwise the parsed tree is loaded (registrations, table and GUID counter as `LoadNodes` leaves them, the table well formed) and its snapshot published and broadcast, with count its length |
| OpcUaClient.NormalizeEndpointSpec | MTPSimulator.App/Core/OPCUAClient.cs:50-62 | the result has the scheme: the trimmed input if it has one, the scheme plus the input if it holds ':', else the scheme, the input and ":4840" |
| OpcUaClient.NormalizeEndpointOfHost | MTPSimulator.App/Core/OPCUAClient.cs:60-61 | `localhost` becomes `opc.tcp://localhost:4840` |
| OpcUaClient.NormalizeEndpointOfHostAndPort | MTPSimulator.App/Core/OPCUAClient.cs:56-58 | `localhost:4841` gets the scheme only |
| OpcUaClient.NormalizeEndpointTrimmed | MTPSimulator.App/Core/OPCUAClient.cs:52 | the result has no white space at either end |
| OpcUaClient.NormalizeEndpointIdempotent | MTPSimulator.App/Core/OPCUAClient.cs:50-62 | normalising again changes nothing |
| OpcUaClient.GoodPositionsSpec | MTPSimulator.App/Core/OPCUAClient.cs:96-99 | the kept positions are exactly those of Good results, in increasing order |
| OpcUaClient.KeptSpec | MTPSimulator.App/Core/OPCUAClient.cs:96-113 | the answer is, position for position, the entries of the Good results, each tagged with the id requested at the same index |
| OpcUaClient.KeptAllGood | MTPSimulator.App/Core/OPCUAClient.cs:96-108 | when every result is Good, there is one entry per result |
| OpcUaClient.BrowsedSpec | MTPSimulator.App/Core/OPCUAClient.cs:152-167 | the listed entries are exactly the references of the Good results |
| OpcUaClient.OPCUAClient.constructor | MTPSimulator.App/Core/OPCUAClient.cs:236-244 | a new client has no session |
| OpcUaClient.OPCUAClient.Connect | MTPSimulator.App/Core/OPCUAClient.cs:19-48 | the session is made for the normalised address; the result is whether it connected, and false when creating the session fails |
| OpcUaClient.OPCUAClient.Disconnect | MTPSimulator.App/Core/OPCUAClient.cs:64-69 | the session is dropped |
| OpcUaClient.OPCUAClient.ReadNodeValues | MTPSimulator.App/Core/OPCUAClient.cs:71-121 | empty when not connected or when the read fails; otherwise the Good results in order, each with the id at its index, up to the last requested id |
| OpcUaClient.OPCUAClient.BrowseNodes | MTPSimulator.App/Core/OPCUAClient.cs:123-175 | the browse starts at the Objects folder for a missing or empty parent id and at the parent otherwise; empty when not connected or the browse fails, else the references of the Good results, in order |
| OpcUaClient.OPCUAClient.WriteNodeValue | MTPSimulator.App/Core/OPCUAClient.cs:177-206 | true exactly when connected and the write's first status is Good |
| Fetcher.MappingCountAfterAdd | MTPSimulator.App/Core/DataFetcher.cs:35-38 | adding a mapping adds to the count only for a new local id |
| Fetcher.MappingCountAfterRemove | MTPSimulator.App/Core/DataFetcher.cs:40-43 | removing a mapping lowers the count only for a mapped local id |
| Fetcher.RemoveMappingSpec | MTPSimulator.App/Core/DataFetcher.cs:40-43 | removing drops only that local id; an absent id is a no-op |
| Fetcher.AddThenRemove | MTPSimulator.App/Core/DataFetcher.cs:35-43 | adding a new mapping and removing it restores the table |
| Fetcher.RemoteIds | MTPSimulator.App/Core/DataFetcher.cs:95 | the requested ids are the mapped remote ids in the table's order |
| Fetcher.FirstMappedSpec | MTPSimulator.App/Core/DataFetcher.cs:101-107 | the search finds a local id mapped to the remote id with none before it, or fails exactly when none is |
| Fetcher.FirstMappedOfTable | MTPSimulator.App/Core/DataFetcher.cs:101-107 | over the whole table, nothing is found exactly when no local id maps to the remote id |
| Fetcher.Deliveries | MTPSimulator.App/Core/DataFetcher.cs:98-109 | at most one notification per read result |
| Fetcher.DeliveriesStep | MTPSimulator.App/Core/DataFetcher.cs:98-109 | one more read result adds its notification, if any, at the end |
| Fetcher.DeliveriesSound | MTPSimulator.App/Core/DataFetcher.cs:103-105 | every notification goes to a local id mapped to the id of some read result |
| Fetcher.DeliveriesComplete | MTPSimulator.App/Core/DataFetcher.cs:98-109 | every read result whose id some local id maps to is handed on |
| Fetcher.DataFetcher.constructor | MTPSimulator.App/Core/DataFetcher.cs:18-22 | a new fetcher has a fresh client, no mappings and no loop |
| Fetcher.DataFetcher.ConnectToServer | MTPSimulator.App/Core/DataFetcher.cs:24-27 | the client's connection attempt |
| Fetcher.DataFetcher.Disconnect | MTPSimulator.App/Core/DataFetcher.cs:29-33 | polling stops and the session is dropped |
| Fetcher.DataFetcher.AddNodeMapping | MTPSimulator.App/Core/DataFetcher.cs:35-38 | sets or overwrites the mapping of the local id |
| Fetcher.DataFetcher.RemoveNodeMapping | MTPSimulator.App/Core/DataFetcher.cs:40-43 | drops the local id, if it is there |
| Fetcher.DataFetcher.GetMappingCount | MTPSimulator.App/Core/DataFetcher.cs:117-120 | the number of mapped local ids |
| Fetcher.DataFetcher.GetNodeMappings | MTPSimulator.App/Core/DataFetcher.cs:122-125 | a copy equal to the table, which changing the copy cannot affect |
| Fetcher.DataFetcher.StopFetching | MTPSimulator.App/Core/DataFetcher.cs:74-88 | the current loop is cancelled and both fields end cleared |
| Fetcher.DataFetcher.StartFetching | MTPSimulator.App/Core/DataFetcher.cs:45-72 | stop first, then one new loop, so exactly one loop runs |
| Fetcher.DataFetcher.FetchData | MTPSimulator.App/Core/DataFetcher.cs:90-110 | nothing with no mappings; otherwise read the mapped remote ids and hand each result's value, 0.0 for none, to the first local id mapped to it |
| Fetcher.DataFetcher.FirstLocal | MTPSimulator.App/Core/DataFetcher.cs:101-108 | the inner loop with `break` finds the first mapped local id |
| Fetcher.DataFetcher.BrowseRemoteNodes | MTPSimulator.App/Core/DataFetcher.cs:112-115 | the client's browse from the same start node, with the same result |
| Fetcher.DataFetcher.WriteToRemoteNode | MTPSimulator.App/Core/DataFetcher.cs:127-130 | the client's write |
| Fetcher.RestartKeepsOneLoop | MTPSimulator.App/Core/DataFetcher.cs:45-49 | because of the stop in front, a restart from any state leaves exactly one loop |
| Browser.MatchHasNsPrefix | MTPSimulator.App/UI/src/pages/NodeBrowser.tsx:45-46 | the `/^NS\d+\|/i` test only skips ids the full pattern rejects |
| Browser.NormalizeIncomingSpec | MTPSimulator.App/UI/src/pages/NodeBrowser.tsx:103-110 | only a match of the NS form changes, into `ns=<d>;s=tail`; nothing is trimmed and no namespace is added |
| Browser.NormIdSpec | MTPSimulator.App/UI/src/pages/NodeBrowser.tsx:41-51 | "" stays ""; any other id comes out starting with `ns=` and without white space at either end |
| Browser.NormIdIdempotent | MTPSimulator.App/UI/src/pages/NodeBrowser.tsx:41-51 | normalising again changes nothing |
| Browser.NormIdAgrees | MTPSimulator.App/UI/src/pages/NodeBrowser.tsx:41-51 | on every non-empty id without U+0085, U+FEFF, CR, U+2028 or U+2029, `normId` gives the server's key, with `\d` read as ASCII on both sides |
| Browser.NormIdOfEmpty | MTPSimulator.App/UI/src/pages/NodeBrowser.tsx:42 | the two part on "": the UI keeps it, the server makes it `ns=2;s=` |
| Browser.NormIdOfNextLine | MTPSimulator.App/UI/src/pages/NodeBrowser.tsx:43 | they part on a leading U+0085, which only .NET trims |
| Browser.BuildTreeIndexKeys | MTPSimulator.App/UI/src/pages/NodeBrowser.tsx:39-93 | the index of a fetched tree holds exactly the folder's keys "MTP" and its normal form and each variable's normalised id |
| Browser.IndexedKeys | MTPSimulator.App/UI/src/pages/NodeBrowser.tsx:52-57 | the walk adds exactly the raw id and the normalised id of every node |
| Browser.IndexedAllKeys | MTPSimulator.App/UI/src/pages/NodeBrowser.tsx:55-57 | the same for a list of trees |
| Browser.IndexedSound | MTPSimulator.App/UI/src/pages/NodeBrowser.tsx:52-57 | each key leads to its earlier entry or to a node of the tree it names |
| Browser.IndexedAllSound | MTPSimulator.App/UI/src/pages/NodeBrowser.tsx:55-57 | the same for a list of trees |
| Browser.IncomingBareIdNotIndexed | MTPSimulator.App/UI/src/pages/NodeBrowser.tsx:103-115 | a bare id forwarded from the hub, as the server raises it, is left as it is and reaches no node of the fetched tree |
| Browser.NodeIndex.constructor | MTPSimulator.App/UI/src/pages/NodeBrowser.tsx:38 | the index starts empty |
| Browser.NodeIndex.Walk | MTPSimulator.App/UI/src/pages/NodeBrowser.tsx:52-56 | `walk(n)` sets both keys of the node, then walks its children |
| Browser.NodeIndex.WalkAll | MTPSimulator.App/UI/src/pages/NodeBrowser.tsx:55-57 | `forEach(walk)` walks the trees in order |
| Browser.NodeIndex.Rebuild | MTPSimulator.App/UI/src/pages/NodeBrowser.tsx:39-58 | the effect clears the index, then walks every root |
| Browser.CanonicalTypeSpec | MTPSimulator.App/UI/src/pages/NodeBrowser.tsx:196-228 | names outside the synonym table pass through; those inside land on a canonical name that maps to itself |
| Browser.NormalizeDataTypeIgnoresCase | MTPSimulator.App/UI/src/pages/NodeBrowser.tsx:189 | case does not matter |
| Browser.NormalizeDataTypeIgnoresSpace | MTPSimulator.App/UI/src/pages/NodeBrowser.tsx:189 | white space around a non-blank name does not matter |
| Browser.StrippedSchemaType | MTPSimulator.App/UI/src/pages/NodeBrowser.tsx:189-193 | the schema prefix is cut: `xs:int` is read as `int` |
| Browser.StrippedCapitalType | MTPSimulator.App/UI/src/pages/NodeBrowser.tsx:189 | capitals are folded: `Int32` is read as `int32` |
| Browser.NormalizeDataTypeOfSchemaType | MTPSimulator.App/UI/src/pages/NodeBrowser.tsx:187-207 | `xs:int` and `Int32` both give "int32" |
| Browser.FolderIgnoresTypeFilter | MTPSimulator.App/UI/src/pages/NodeBrowser.tsx:233 | a node with children is judged by the search term alone |
| Browser.AllAdmitsEveryType | MTPSimulator.App/UI/src/pages/NodeBrowser.tsx:238 | the filter "all" admits every type |
| Browser.FilterNode | MTPSimulator.App/UI/src/pages/NodeBrowser.tsx:243-250 | a kept node is the node with its children filtered |
| Browser.FilterTree | MTPSimulator.App/UI/src/pages/NodeBrowser.tsx:242-251 | filtering never adds nodes |
| Browser.FilterNodeSpec | MTPSimulator.App/UI/src/pages/NodeBrowser.tsx:242-251 | a node is kept exactly when some node of its subtree matches |
| Browser.FilterTreeSpec | MTPSimulator.App/UI/src/pages/NodeBrowser.tsx:242-251 | a list keeps something exactly when some node of its trees matches |
| Browser.FilterTreeConcat | MTPSimulator.App/UI/src/pages/NodeBrowser.tsx:243-251 | the kept siblings stay in their order |
| Browser.FilterAllKeepsNode | MTPSimulator.App/UI/src/pages/NodeBrowser.tsx:231-251 | with no term and filter "all", a tree is kept unchanged |
| Browser.FilterAllKeepsTree | MTPSimulator.App/UI/src/pages/NodeBrowser.tsx:231-253 | the same for a list of trees |
| Browser.ToggleNode | MTPSimulator.App/UI/src/pages/NodeBrowser.tsx:145-153 | a node with the id flips `expanded` and keeps its children untouched; any other keeps its flag with its children rebuilt; nothing else changes |
| Browser.Toggle | MTPSimulator.App/UI/src/pages/NodeBrowser.tsx:144-154 | the list keeps its length |
| Browser.ToggleNodeTwice | MTPSimulator.App/UI/src/pages/NodeBrowser.tsx:143-156 | toggling the same id twice restores the tree |
| Browser.ToggleTwice | MTPSimulator.App/UI/src/pages/NodeBrowser.tsx:143-156 | the same for a list of trees |
| Browser.ToggleNodeAbsent | MTPSimulator.App/UI/src/pages/NodeBrowser.tsx:146-152 | an id no node carries changes nothing |
| Browser.ToggleAbsent | MTPSimulator.App/UI/src/pages/NodeBrowser.tsx:144-154 | the same for a list of trees |

## Left out

- I/O is not modelled: reading files, `XDocument.Parse`, zip entries, SQLite, the temp file of an upload, HTTP, and the OPC UA sessions. Their outcomes are inputs instead: a parsed document, archive entries, a store that can fail (`dbOk`), a session that connected or not, and a read, browse or write response, or none if it threw.
- The OPC UA stack configuration, certificates, and server start and stop (`StartAsync`, `Stop`) are not modelled. Neither is the folder plumbing of `CreateAddressSpace`, apart from the MTP folder's id. The placeholder "Status" variable is registered nowhere in the table, so it is not modelled either.
- Sine and noise values are not modelled. A tick takes the generated value of each key as an input.
- Concurrency is not modelled: tasks, delays, cancellation and `Wait(1000)`. The start/stop state is modelled as whether a current loop exists and how many loops run.
- Events reach the web host's hub as messages in a log; the SignalR transport is not modelled.
- The GUID fallback of `AddNodesFromMtp` is an injected function of the number of GUIDs drawn so far. `DateTime.UtcNow` is not modelled: the `datetime`/`date` default is the abstract value `CurrentTime`, and the variable `Timestamp`s set when a variable is created and when its value is updated are not modelled.
- `NodeId.Parse`, the printing of NodeIds, `double.TryParse`, `double.ToString` and `GetType().Name` are injected functions. The namespace index of the simulator's namespace is fixed at 2.
- `Values.ByteTryParse`: the Access attribute's `byte.TryParse` takes the current culture's positive and negative signs; the model fixes them as ASCII `+` and `-`.
- The override's `double.TryParse` runs under the current culture of the running thread. The injected `parseNumber` stands for it, so which texts parse, and to what, is left open.
- `Parser.GetFileName`: splits only at `\` and `/`. The Windows volume prefix (`C:file.aml`, where .NET's file name starts after the colon) is not modelled.
- Case folding and `\d` are ASCII only. The white-space sets of .NET and JavaScript are modelled exactly.
- `Browser.TreeNode`: an absent `children` list is modelled as the empty list and an absent `expanded` as false. Every modelled helper treats both pairs alike.
- The UI's hub handlers assign `node.value` through the index. The index entries alias nodes of the displayed tree, and the model does not capture that aliasing: the tree is a value. The effect's reading of an index that React rebuilt is not modelled. Neither is the fetch of `/api/read` for the selected node. `Browser.IncomingBareIdNotIndexed` states which ids the handlers can find.
- `OpcUaClient.OPCUAClient.Connect`: a failed reconnect keeps the old session's state. An exception from creating the session is the `None` input.
- `OpcUaClient.OPCUAClient.ReadNodeValues`: `new NodeId(id)` can throw for malformed ids. That case is part of the `None` response.
- `Fetcher.DataFetcher.FetchData` takes the enumeration order of the mapping table as an input. It requires only that the order lists mapped ids, not that it lists each one exactly once; the lemmas about deliveries add that condition.
- Rendering, and the UI pages other than the node browser, are not modelled.
