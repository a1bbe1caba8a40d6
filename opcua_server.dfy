/** The OPC UA server side of the simulator: how it normalises tag keys and
    endpoints, how descriptor data types map to OPC UA types, default values
    and access levels, the variable table its node manager keeps, and the
    handlers that route simulated values and external writes through the
    override store. The OPC UA stack itself is not part of this model. */
module OpcUaServer {
  import opened Wrappers
  import opened Text
  import opened Values
  import opened Models
  import opened NodeIds

  // ---------------------------------------------------------------------
  // Tag keys
  // ---------------------------------------------------------------------

  /** The variable-table key `TryGetValue` looks up: the trimmed id (empty
      for null), the `NS<d>|x|tail` form rewritten to `ns=<d>;s=tail`, and
      `ns=2;s=` in front of anything not already of the form `ns=...`. */
  function NormalizeKey(nodeId: Option<string>): string {
    var key := match nodeId case None => "" case Some(s) => Trim(s);
    var rewritten := if StartsWithIgnoreCase(key, "ns") then RewriteNsForm(DotNetRegex, key) else key;
    if IsNormalForm(rewritten) then rewritten else "ns=2;s=" + rewritten
  }

  /** Every key starts with `ns=` (ignoring case). */
  lemma NormalizeKeyIsNormal(nodeId: Option<string>)
    ensures IsNormalForm(NormalizeKey(nodeId))
  {
    var key := match nodeId case None => "" case Some(s) => Trim(s);
    var rewritten := if StartsWithIgnoreCase(key, "ns") then RewriteNsForm(DotNetRegex, key) else key;
    if !IsNormalForm(rewritten) {
      assert ("ns=2;s=" + rewritten)[..3] == "ns=";
    }
  }

  /** A trimmed id already of the form `ns=...` is the key itself. */
  lemma NormalizeKeyOfNormalForm(s: string)
    requires IsNormalForm(Trim(s))
    ensures NormalizeKey(Some(s)) == Trim(s)
  {
    NormalFormDoesNotMatch(DotNetRegex, Trim(s));
  }

  /** A trimmed id of the form `NS<d>|x|tail` becomes `ns=<d>;s=tail`. */
  lemma NormalizeKeyOfNsForm(s: string)
    requires MatchNsForm(DotNetRegex, Trim(s)).Some?
    ensures NormalizeKey(Some(s)) == "ns=" + MatchNsForm(DotNetRegex, Trim(s)).value.index + ";s="
                                     + MatchNsForm(DotNetRegex, Trim(s)).value.identifier
  {
    MatchNsFormSound(DotNetRegex, Trim(s));
    RewriteIsNormal(DotNetRegex, Trim(s));
  }

  /** Any other id gets the default namespace in front of its trim; a null
      id gives `ns=2;s=`. */
  lemma NormalizeKeyOfBareId(s: Option<string>)
    requires s.Some? ==> MatchNsForm(DotNetRegex, Trim(s.value)).None? && !IsNormalForm(Trim(s.value))
    ensures NormalizeKey(s) == "ns=2;s=" + (if s.Some? then Trim(s.value) else "")
  {
  }

  // The bare token, the `NS` form, the normal form and a padded token of
  // one tag all meet in one key.

  lemma NormalizeKeyOfToken()
    ensures NormalizeKey(Some("R0001")) == "ns=2;s=R0001"
  {
    var t := "R0001";
    TrimWithUnchanged(t, DotNetSpace);
    assert t[..2] == "R0";
    LowerPair('R', '0');
    if IsNormalForm("R0001") {
      NormalFormStartsWithNs("R0001");
    }
    MatchNeedsNsPrefix(DotNetRegex, t);
    NormalizeKeyOfBareId(Some(t));
  }

  lemma NormalizeKeyOfNsExample()
    ensures NormalizeKey(Some("NS2|String|R0001")) == "ns=2;s=R0001"
  {
    var t := "NS2|String|R0001";
    assert "ns=" + "2" + ";s=" + "R0001" == "ns=2;s=R0001";
    assert Shape("NS", "2", "String", "R0001") == t;
    TrimWithUnchanged(t, DotNetSpace);
    MatchNsFormComplete(DotNetRegex, "NS", "2", "String", "R0001");
    assert MatchNsForm(DotNetRegex, Trim(t)) == Some(NsForm("2", "R0001"));
    NormalizeKeyOfNsForm(t);

  }

  lemma NormalizeKeyOfNormalExample()
    ensures NormalizeKey(Some("ns=2;s=R0001")) == "ns=2;s=R0001"
  {
    var t := "ns=2;s=R0001";
    TrimWithUnchanged(t, DotNetSpace);
    assert t[..3] == "ns=";
    NormalizeKeyOfNormalForm(t);
  }

  lemma NormalizeKeyOfPaddedToken()
    ensures NormalizeKey(Some("  R0001 ")) == "ns=2;s=R0001"
  {
    var t := "  R0001 ";
    assert TrimStart(t, DotNetSpace) == "R0001 ";
    assert TrimEnd("R0001 ", DotNetSpace) == "R0001";
    assert Trim(t) == "R0001";
    assert "R0001"[..2] == "R0";
    LowerPair('R', '0');
    if IsNormalForm("R0001") {
      NormalFormStartsWithNs("R0001");
    }
    MatchNeedsNsPrefix(DotNetRegex, "R0001");
    NormalizeKeyOfBareId(Some(t));
  }

  /** Keys are trimmed: no white space survives at either end. */
  lemma {:induction false} NormalizeKeyTrimmed(nodeId: Option<string>)
    ensures Trimmed(NormalizeKey(nodeId), DotNetSpace)
  {
    var key := match nodeId case None => "" case Some(s) => Trim(s);
    assert Trimmed(key, DotNetSpace) by {
      if nodeId.Some? {
        TrimWithSpec(nodeId.value, DotNetSpace);
      }
    }
    var rewritten := if StartsWithIgnoreCase(key, "ns") then RewriteNsForm(DotNetRegex, key) else key;
    RewriteKeepsTrimmed(key);
    if !IsNormalForm(rewritten) {
      TrimmedAfterPrefix("ns=2;s=", rewritten, DotNetSpace);
    }
  }

  /** The rewrite of a trimmed key is trimmed. */
  lemma RewriteKeepsTrimmed(key: string)
    requires Trimmed(key, DotNetSpace)
    ensures Trimmed(if StartsWithIgnoreCase(key, "ns") then RewriteNsForm(DotNetRegex, key) else key, DotNetSpace)
  {
    if MatchNsForm(DotNetRegex, key).Some? {
      RewriteTrimmed(DotNetRegex, DotNetSpace, key);
    }
  }

  /** Normalising a key again gives the same key. */
  lemma NormalizeKeyIdempotent(nodeId: Option<string>)
    ensures NormalizeKey(Some(NormalizeKey(nodeId))) == NormalizeKey(nodeId)
  {
    var r := NormalizeKey(nodeId);
    NormalizeKeyTrimmed(nodeId);
    NormalizeKeyIsNormal(nodeId);
    TrimWithUnchanged(r, DotNetSpace);
    NormalizeKeyOfNormalForm(r);
  }

  // ---------------------------------------------------------------------
  // Endpoint
  // ---------------------------------------------------------------------

  /** The trimmed endpoint, with `opc.tcp://` in front unless it has it
      (ignoring case). */
  function NormalizeEndpoint(input: string): string {
    var trimmed := Trim(input);
    if StartsWithIgnoreCase(trimmed, "opc.tcp://") then trimmed else "opc.tcp://" + trimmed
  }

  /** The result always has the scheme, and it is the trimmed input, either
      alone (when that already had the scheme) or after the scheme. */
  lemma NormalizeEndpointSpec(input: string)
    ensures StartsWithIgnoreCase(NormalizeEndpoint(input), "opc.tcp://")
    ensures StartsWithIgnoreCase(Trim(input), "opc.tcp://") ==> NormalizeEndpoint(input) == Trim(input)
    ensures !StartsWithIgnoreCase(Trim(input), "opc.tcp://") ==> NormalizeEndpoint(input) == "opc.tcp://" + Trim(input)
  {
    var trimmed := Trim(input);
    if !StartsWithIgnoreCase(trimmed, "opc.tcp://") {
      assert ("opc.tcp://" + trimmed)[..10] == "opc.tcp://";
    }
  }

  /** The endpoint has no white space at either end. */
  lemma NormalizeEndpointTrimmed(input: string)
    ensures Trimmed(NormalizeEndpoint(input), DotNetSpace)
  {
    TrimWithSpec(input, DotNetSpace);
    if !StartsWithIgnoreCase(Trim(input), "opc.tcp://") {
      TrimmedAfterPrefix("opc.tcp://", Trim(input), DotNetSpace);
    }
  }

  /** Normalising an endpoint again changes nothing. */
  lemma NormalizeEndpointIdempotent(input: string)
    ensures NormalizeEndpoint(NormalizeEndpoint(input)) == NormalizeEndpoint(input)
  {
    var r := NormalizeEndpoint(input);
    NormalizeEndpointSpec(input);
    NormalizeEndpointTrimmed(input);
    TrimWithUnchanged(r, DotNetSpace);
    assert StartsWithIgnoreCase(Trim(r), "opc.tcp://");
  }

  // ---------------------------------------------------------------------
  // Data types
  // ---------------------------------------------------------------------

  /** The OPC UA built-in data types the node manager hands out (a stand-in
      for the stack's `DataTypeIds` node ids). */
  datatype DataTypeId =
    | Boolean | String | Byte | SByte | Int16 | UInt16 | Int32 | UInt32
    | Int64 | UInt64 | Float | Double | DateTime

  /** `t` without the prefix `p` in front (ignoring case), when it has it. */
  function StripPrefix(t: string, p: string): (r: string)
    ensures StartsWithIgnoreCase(t, p) ==> t == t[..|p|] + r
    ensures !StartsWithIgnoreCase(t, p) ==> r == t
  {
    if StartsWithIgnoreCase(t, p) then t[|p|..] else t
  }

  /** The `GetDataTypeId` switch on a lower-case name; `default` is Double. */
  function TypeOfName(name: string): DataTypeId {
    if name in {"bool", "boolean"} then Boolean
    else if name in {"string", "normalizedstring", "token"} then String
    else if name in {"byte", "unsignedbyte"} then Byte
    else if name == "sbyte" then SByte
    else if name in {"short", "int16"} then Int16
    else if name in {"unsignedshort", "uint16"} then UInt16
    else if name in {"int", "integer", "int32"} then Int32
    else if name in {"unsignedint", "uint32", "positiveinteger", "nonpositiveinteger",
                     "nonnegativeinteger", "negativeinteger"} then UInt32
    else if name in {"long", "int64"} then Int64
    else if name in {"unsignedlong", "uint64"} then UInt64
    else if name in {"float", "single"} then Float
    else if name == "double" then DataTypeId.Double
    else if name in {"datetime", "date", "time", "gyear", "gmonth", "gday", "gyearmonth",
                     "gmonthday", "duration"} then DateTime
    else if name == "decimal" then DataTypeId.Double
    else if name in {"anyuri", "qname", "notation", "base64binary", "hexbinary"} then String
    else DataTypeId.Double
  }

  /** The name `GetDataTypeId` looks up: none for a blank name; otherwise
      the trimmed name, without an `xs:` and then without an `xsd:` prefix,
      in lower case. */
  function DataTypeKey(dt: Option<string>): Option<string> {
    if IsNullOrWhiteSpace(dt) then None
    else Some(Lower(StripPrefix(StripPrefix(Trim(dt.value), "xs:"), "xsd:")))
  }

  /** `GetDataTypeId`: Double for a blank name, else the table's entry. */
  function GetDataTypeId(dt: Option<string>): DataTypeId {
    match DataTypeKey(dt)
    case None => DataTypeId.Double
    case Some(name) => TypeOfName(name)
  }

  /** Stripping a prefix ignoring case commutes with case folding. */
  lemma StripPrefixLower(t: string, p: string)
    ensures StripPrefix(Lower(t), p) == Lower(StripPrefix(t, p))
  {
    StartsWithLower(t, p);
    if StartsWithIgnoreCase(t, p) {
      LowerSlice(t, |p|, |t|);
      assert t[|p|..|t|] == t[|p|..];
      assert Lower(t)[|p|..|t|] == Lower(t)[|p|..];
    }
  }

  /** Data type names are matched ignoring case, prefixes included. */
  lemma GetDataTypeIdIgnoresCase(s: string)
    ensures DataTypeKey(Some(Lower(s))) == DataTypeKey(Some(s))
    ensures GetDataTypeId(Some(Lower(s))) == GetDataTypeId(Some(s))
  {
    BlankLower(s);
    if !IsBlank(s) {
      TrimLower(s, DotNetSpace);
      var t := Trim(s);
      StripPrefixLower(t, "xs:");
      StripPrefixLower(StripPrefix(t, "xs:"), "xsd:");
      LowerIdempotent(StripPrefix(StripPrefix(t, "xs:"), "xsd:"));
    }
  }

  /** White space around a data type name does not matter. */
  lemma GetDataTypeIdIgnoresSpace(s: string)
    ensures DataTypeKey(Some(Trim(s))) == DataTypeKey(Some(s))
    ensures GetDataTypeId(Some(Trim(s))) == GetDataTypeId(Some(s))
  {
    TrimWithSpec(s, DotNetSpace);
    TrimWithIdempotent(s, DotNetSpace);
    if IsBlank(s) {
      assert Trim(s) == [];
    } else {
      TrimNonBlank(s);
    }
  }

  lemma XsPrefixed(p: string, s: string)
    requires p == "xs:" || p == "xsd:"
    requires Trimmed(s, DotNetSpace)
    ensures Trim(p + s) == p + s && (p + s)[|p|..] == s && !IsBlank(p + s)
    ensures StartsWithIgnoreCase(p + s, p)
  {
    TrimmedAfterPrefix(p, s, DotNetSpace);
    TrimWithUnchanged(p + s, DotNetSpace);
    assert (p + s)[..|p|] == p;
    LowerUnchanged(p);
    assert (p + s)[0] == 'x';
  }

  /** An `xs:` prefix is ignored, for a trimmed, non-blank name that does
      not itself start with `xs:`. */
  lemma GetDataTypeIdStripsXs(s: string)
    requires Trimmed(s, DotNetSpace) && !IsBlank(s) && !StartsWithIgnoreCase(s, "xs:")
    ensures DataTypeKey(Some("xs:" + s)) == DataTypeKey(Some(s))
    ensures GetDataTypeId(Some("xs:" + s)) == GetDataTypeId(Some(s))
  {
    XsPrefixed("xs:", s);
    TrimWithUnchanged(s, DotNetSpace);
  }

  /** So is an `xsd:` prefix, for a trimmed, non-blank name that starts
      with neither prefix. */
  lemma GetDataTypeIdStripsXsd(s: string)
    requires Trimmed(s, DotNetSpace) && !IsBlank(s)
    requires !StartsWithIgnoreCase(s, "xs:") && !StartsWithIgnoreCase(s, "xsd:")
    ensures DataTypeKey(Some("xsd:" + s)) == DataTypeKey(Some(s))
    ensures GetDataTypeId(Some("xsd:" + s)) == GetDataTypeId(Some(s))
  {
    XsPrefixed("xsd:", s);
    var t := "xsd:" + s;
    NotStartsWithAt(t, "xs:", 2);
    TrimWithUnchanged(s, DotNetSpace);
  }

  // ---------------------------------------------------------------------
  // Default values
  // ---------------------------------------------------------------------

  /** The initial value of a variable: `false`, `string.Empty`, a zero of a
      numeric type, or the clock's current time (left abstract). */
  datatype DefaultValue = False | EmptyString | Zero(numeric: DataTypeId) | CurrentTime

  /** The `GetDefaultValue` switch on a lower-case name; None is its `_` arm. */
  function DefaultOfName(name: string): Option<DefaultValue> {
    if name in {"bool", "boolean"} then Some(False)
    else if name in {"string", "normalizedstring", "token"} then Some(EmptyString)
    else if name == "byte" then Some(Zero(Byte))
    else if name == "sbyte" then Some(Zero(SByte))
    else if name in {"short", "int16"} then Some(Zero(Int16))
    else if name in {"unsignedshort", "uint16"} then Some(Zero(UInt16))
    else if name in {"int", "integer", "int32"} then Some(Zero(Int32))
    else if name in {"unsignedint", "uint32"} then Some(Zero(UInt32))
    else if name in {"long", "int64"} then Some(Zero(Int64))
    else if name in {"unsignedlong", "uint64"} then Some(Zero(UInt64))
    else if name == "float" then Some(Zero(Float))
    else if name == "double" then Some(Zero(DataTypeId.Double))
    else if name in {"datetime", "date"} then Some(CurrentTime)
    else if name == "decimal" then Some(Zero(DataTypeId.Double))
    else if name in {"anyuri", "qname"} then Some(EmptyString)
    else None
  }

  /** `GetDefaultValue`: 0.0 for a blank or unlisted name; only `xs:` is stripped. */
  function GetDefaultValue(dt: Option<string>): DefaultValue {
    if IsNullOrWhiteSpace(dt) then Zero(DataTypeId.Double)
    else DefaultOfName(Lower(StripPrefix(Trim(dt.value), "xs:"))).GetOr(Zero(DataTypeId.Double))
  }

  /** The data type of a default value. */
  function TypeOfDefault(v: DefaultValue): DataTypeId {
    match v
    case False => Boolean
    case EmptyString => String
    case Zero(t) => t
    case CurrentTime => DateTime
  }

  /** Every default the table lists has the type the type table gives the
      same name. */
  lemma DefaultOfNameAgrees(name: string)
    requires DefaultOfName(name).Some?
    ensures TypeOfDefault(DefaultOfName(name).value) == TypeOfName(name)
  {
    if name in {"bool", "boolean"} {
    } else if name in {"string", "normalizedstring", "token"} {
    } else if name in {"byte", "sbyte", "short", "int16", "unsignedshort", "uint16"} {
    } else if name in {"int", "integer", "int32", "unsignedint", "uint32"} {
    } else if name in {"long", "int64", "unsignedlong", "uint64", "float", "double"} {
    } else if name in {"datetime", "date", "decimal", "anyuri", "qname"} {
    }
  }

  /** Where the default table lists the stripped name and no `xsd:` prefix
      is left, the initial value has the variable's data type. */
  lemma GetDefaultValueAgrees(s: string)
    requires DefaultOfName(Lower(StripPrefix(Trim(s), "xs:"))).Some?
    requires !StartsWithIgnoreCase(StripPrefix(Trim(s), "xs:"), "xsd:")
    ensures TypeOfDefault(GetDefaultValue(Some(s))) == GetDataTypeId(Some(s))
  {
    if IsBlank(s) {
      TrimWithSpec(s, DotNetSpace);
      assert Trim(s) == [];
    }
    DefaultOfNameAgrees(Lower(StripPrefix(Trim(s), "xs:")));
  }

  /** The two tables disagree elsewhere: `time` gives a DateTime variable
      whose initial value is the double 0.0. */
  lemma DefaultOfTimeIsDouble()
    ensures GetDataTypeId(Some("time")) == DateTime
    ensures GetDefaultValue(Some("time")) == Zero(DataTypeId.Double)
  {
    var t := "time";
    TrimWithUnchanged(t, DotNetSpace);
    NotStartsWithAt(t, "xs:", 0);
    NotStartsWithAt(t, "xsd:", 0);
    LowerUnchanged(t);
    assert DataTypeKey(Some(t)) == Some("time");
    TimeTableEntries();
  }

  lemma TimeTableEntries()
    ensures TypeOfName("time") == DateTime && DefaultOfName("time") == None
  {
    assert TypeOfName("time") == DateTime;
  }

  // ---------------------------------------------------------------------
  // Access levels
  // ---------------------------------------------------------------------

  /** The OPC UA AccessLevel bits (OPC 10000-3, section 8.57). */
  const CurrentRead: byte := 1
  const CurrentWrite: byte := 2
  const CurrentReadOrWrite: byte := 3

  predicate CanRead(level: byte) {
    level as int % 2 == 1
  }

  predicate CanWrite(level: byte) {
    (level as int / 2) % 2 == 1
  }

  /** `MapAccess`: 1 is read-only, 2 write-only, anything else (3, other
      bytes, or no Access at all) read and write. */
  function MapAccess(access: Option<byte>): (level: byte)
    ensures CanRead(level) <==> access != Some(2)
    ensures CanWrite(level) <==> access != Some(1)
    ensures level == CurrentRead || level == CurrentWrite || level == CurrentReadOrWrite
  {
    if access == Some(1) then CurrentRead
    else if access == Some(2) then CurrentWrite
    else CurrentReadOrWrite
  }
}
