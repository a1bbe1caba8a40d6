/** The OPC UA client the data fetcher reads a remote server with: how it
    completes an endpoint address, and which answers of a read or a browse
    it keeps. The session, its secure channel and the requests on the wire
    are not part of this model; each service call's answer (or the
    exception it raises) is an input. */
module OpcUaClient {
  import opened Wrappers
  import opened Text
  import opened Values
  import opened Seqs

  // ---------------------------------------------------------------------
  // Endpoint addresses
  // ---------------------------------------------------------------------

  /** The scheme of an OPC UA TCP endpoint (section 7.2 of OPC 10000-6). */
  const Scheme := "opc.tcp://"

  /** The port an address without one is given. */
  const DefaultPort := ":4840"

  /** `NormalizeEndpoint`: the trimmed input when it already has the scheme
      (ignoring case); otherwise the scheme in front, and the default port
      behind when the input has no `:` at all. */
  function NormalizeEndpoint(input: string): string {
    var trimmed := Trim(input);
    if StartsWithIgnoreCase(trimmed, Scheme) then trimmed
    else if ':' in trimmed then Scheme + trimmed
    else Scheme + trimmed + DefaultPort
  }

  /** The three forms of an address, and the scheme every result carries. */
  lemma NormalizeEndpointSpec(input: string)
    ensures StartsWithIgnoreCase(NormalizeEndpoint(input), Scheme)
    ensures StartsWithIgnoreCase(Trim(input), Scheme) ==> NormalizeEndpoint(input) == Trim(input)
    ensures !StartsWithIgnoreCase(Trim(input), Scheme) && ':' in Trim(input) ==>
              NormalizeEndpoint(input) == Scheme + Trim(input)
    ensures !StartsWithIgnoreCase(Trim(input), Scheme) && ':' !in Trim(input) ==>
              NormalizeEndpoint(input) == Scheme + Trim(input) + DefaultPort
  {
    var trimmed := Trim(input);
    if !StartsWithIgnoreCase(trimmed, Scheme) {
      var r := NormalizeEndpoint(input);
      assert r[..10] == Scheme;
      LowerUnchanged(Scheme);
    }
  }

  /** A host name alone gets the scheme and the default port. */
  lemma NormalizeEndpointOfHost()
    ensures NormalizeEndpoint("localhost") == "opc.tcp://localhost:4840"
  {
    TrimWithUnchanged("localhost", DotNetSpace);
    NotStartsWithAt("localhost", Scheme, 0);
  }

  /** A host and port get the scheme only. */
  lemma NormalizeEndpointOfHostAndPort()
    ensures NormalizeEndpoint("localhost:4841") == "opc.tcp://localhost:4841"
  {
    var s := "localhost:4841";
    TrimWithUnchanged(s, DotNetSpace);
    NotStartsWithAt(s, Scheme, 0);
    assert s[9] == ':';
  }

  /** The result has no white space at either end. */
  lemma NormalizeEndpointTrimmed(input: string)
    ensures Trimmed(NormalizeEndpoint(input), DotNetSpace)
  {
    TrimWithSpec(input, DotNetSpace);
    var trimmed := Trim(input);
    if !StartsWithIgnoreCase(trimmed, Scheme) {
      TrimmedAfterPrefix(Scheme, trimmed, DotNetSpace);
      if ':' !in trimmed {
        var r := Scheme + trimmed + DefaultPort;
        assert r[0] == 'o' && r[|r| - 1] == '0';
      }
    }
  }

  /** Normalising an address again changes nothing. */
  lemma NormalizeEndpointIdempotent(input: string)
    ensures NormalizeEndpoint(NormalizeEndpoint(input)) == NormalizeEndpoint(input)
  {
    var r := NormalizeEndpoint(input);
    NormalizeEndpointSpec(input);
    NormalizeEndpointTrimmed(input);
    TrimWithUnchanged(r, DotNetSpace);
  }

  // ---------------------------------------------------------------------
  // Reading values
  // ---------------------------------------------------------------------

  /** One `DataValue` of a Read response: whether its status code is Good,
      its value, and its source timestamp. */
  datatype ReadResult = ReadResult(good: bool, value: Option<Value>, sourceTimestamp: int)

  /** `NodeData`: what a read or a browse hands back. Fields a call does not
      set keep their defaults (empty text, no value, timestamp 0). */
  datatype NodeData = NodeData(nodeId: string, displayName: string, nodeClass: string,
                               dataType: string, value: Option<Value>, timestamp: int)

  /** The entry for a Good result of the id requested at the same position;
      `typeName` is `GetType().Name`. */
  function DataOf(nodeId: string, r: ReadResult, typeName: Value -> string): (d: NodeData)
    ensures d.nodeId == nodeId && d.value == r.value && d.timestamp == r.sourceTimestamp
    ensures d.dataType == (if r.value.None? then "Unknown" else typeName(r.value.value))
  {
    NodeData(nodeId, "", "", match r.value case None => "Unknown" case Some(v) => typeName(v),
             r.value, r.sourceTimestamp)
  }

  /** The positions of the Good results, in order. */
  function GoodPositions(rs: seq<ReadResult>): seq<nat> {
    if rs == [] then []
    else GoodPositions(rs[..|rs| - 1]) + (if rs[|rs| - 1].good then [|rs| - 1] else [])
  }

  /** The entries of the Good results among `rs`, each tagged with the id
      requested at its position. */
  function Kept(ids: seq<string>, rs: seq<ReadResult>, typeName: Value -> string): seq<NodeData>
    requires |rs| <= |ids|
  {
    if rs == [] then []
    else Kept(ids, rs[..|rs| - 1], typeName)
         + (if rs[|rs| - 1].good then [DataOf(ids[|rs| - 1], rs[|rs| - 1], typeName)] else [])
  }

  /** The Good positions are exactly the positions of Good results, in
      increasing order. */
  lemma {:induction false} GoodPositionsSpec(rs: seq<ReadResult>)
    ensures forall k :: 0 <= k < |GoodPositions(rs)| ==>
              GoodPositions(rs)[k] < |rs| && rs[GoodPositions(rs)[k]].good
    ensures forall a, b :: 0 <= a < b < |GoodPositions(rs)| ==> GoodPositions(rs)[a] < GoodPositions(rs)[b]
    ensures forall i :: 0 <= i < |rs| && rs[i].good ==> i in GoodPositions(rs)
  {
    if rs != [] {
      var init := rs[..|rs| - 1];
      GoodPositionsSpec(init);
      var p := GoodPositions(init);
      assert forall k :: 0 <= k < |p| ==> p[k] < |init| && rs[p[k]] == init[p[k]];
      forall i | 0 <= i < |rs| && rs[i].good
        ensures i in GoodPositions(rs)
      {
        if i < |init| {
          assert init[i] == rs[i];
        }
      }
    }
  }

  /** The kept entries are, position for position, the entries of the Good
      results: nothing else is kept, nothing Good is lost, the order is the
      request order, and each entry carries the id requested at its position. */
  lemma {:induction false} KeptSpec(ids: seq<string>, rs: seq<ReadResult>, typeName: Value -> string)
    requires |rs| <= |ids|
    ensures |Kept(ids, rs, typeName)| == |GoodPositions(rs)|
    ensures forall k :: 0 <= k < |GoodPositions(rs)| ==>
              (GoodPositions(rs)[k] < |rs|
               && Kept(ids, rs, typeName)[k] == DataOf(ids[GoodPositions(rs)[k]], rs[GoodPositions(rs)[k]], typeName))
  {
    GoodPositionsSpec(rs);
    if rs != [] {
      var init := rs[..|rs| - 1];
      KeptSpec(ids, init, typeName);
      GoodPositionsSpec(init);
      var p := GoodPositions(init);
      assert forall k :: 0 <= k < |p| ==> rs[p[k]] == init[p[k]];
    }
  }

  /** When every result is Good, the answer has one entry per result. */
  lemma KeptAllGood(ids: seq<string>, rs: seq<ReadResult>, typeName: Value -> string)
    requires |rs| <= |ids| && forall i :: 0 <= i < |rs| ==> rs[i].good
    ensures |Kept(ids, rs, typeName)| == |rs|
  {
    GoodPositionsSpec(rs);
    KeptSpec(ids, rs, typeName);
    var p := GoodPositions(rs);
    PositionsCover(p, |rs|);
  }

  /** A strictly increasing list of positions below `n` that holds every
      position below `n` has length `n`. */
  lemma {:induction false} PositionsCover(p: seq<nat>, n: nat)
    requires forall k :: 0 <= k < |p| ==> p[k] < n
    requires forall a, b :: 0 <= a < b < |p| ==> p[a] < p[b]
    requires forall i :: 0 <= i < n ==> i in p
    ensures |p| == n
  {
    if n != 0 {
      assert n - 1 in p;
      var j :| 0 <= j < |p| && p[j] == n - 1;
      assert p[j] <= p[|p| - 1];
      var q := p[..|p| - 1];
      forall i | 0 <= i < n - 1
        ensures i in q
      {
        assert i in p;
        var k :| 0 <= k < |p| && p[k] == i;
        assert k != |p| - 1;
        assert q[k] == p[k];
      }
      PositionsCover(q, n - 1);
    }
  }

  /** What a read of `ids` answers: nothing when not connected or when the
      read raised, else the Good results among those that have a requested
      id at their position. */
  function ReadAnswer(connected: bool, ids: seq<string>, response: Option<seq<ReadResult>>,
                      typeName: Value -> string): seq<NodeData>
  {
    if !connected || response.None? then []
    else
      var rs := response.value;
      Kept(ids, rs[..if |rs| <= |ids| then |rs| else |ids|], typeName)
  }

  // ---------------------------------------------------------------------
  // Browsing
  // ---------------------------------------------------------------------

  /** A reference a Browse result lists: the target's id, display name,
      node class and, when it has one, type definition (all as text). */
  datatype Reference = Reference(nodeId: string, displayName: string, nodeClass: string,
                                 typeDefinition: Option<string>)

  /** One result of a Browse response. */
  datatype BrowseResult = BrowseResult(good: bool, references: seq<Reference>)

  /** The entry for one reference; a missing type definition reads "Unknown". */
  function EntryOf(r: Reference): (d: NodeData)
    ensures d.nodeId == r.nodeId && d.displayName == r.displayName && d.nodeClass == r.nodeClass
    ensures d.dataType == r.typeDefinition.GetOr("Unknown") && d.value.None?
  {
    NodeData(r.nodeId, r.displayName, r.nodeClass, r.typeDefinition.GetOr("Unknown"), None, 0)
  }

  /** The entries of one result: all its references when it is Good, none otherwise. */
  function EntriesOf(b: BrowseResult): seq<NodeData> {
    if b.good then seq(|b.references|, i requires 0 <= i < |b.references| => EntryOf(b.references[i]))
    else []
  }

  /** The node a browse starts from: the Objects folder for a missing or
      empty parent id (`None`), else the parent id. */
  function BrowseStart(parentNodeId: Option<string>): (start: Option<string>)
    ensures start.Some? <==> parentNodeId.Some? && parentNodeId.value != ""
    ensures start.Some? ==> start == parentNodeId
  {
    match parentNodeId
    case Some(p) => if p == "" then None else Some(p)
    case None => None
  }

  /** Only the references of Good results are listed, and all of them. */
  lemma {:induction false} BrowsedSpec(bs: seq<BrowseResult>, d: NodeData)
    ensures d in FlatMap(bs, EntriesOf) ==>
              exists i, j :: 0 <= i < |bs| && bs[i].good && 0 <= j < |bs[i].references|
                             && d == EntryOf(bs[i].references[j])
    ensures forall i, j :: 0 <= i < |bs| && bs[i].good && 0 <= j < |bs[i].references| ==>
              EntryOf(bs[i].references[j]) in FlatMap(bs, EntriesOf)
    decreases |bs|
  {
    if bs != [] {
      var init := bs[..|bs| - 1];
      var last := bs[|bs| - 1];
      BrowsedSpec(init, d);
      assert FlatMap(bs, EntriesOf) == FlatMap(init, EntriesOf) + EntriesOf(last);
      forall i, j | 0 <= i < |bs| && bs[i].good && 0 <= j < |bs[i].references|
        ensures EntryOf(bs[i].references[j]) in FlatMap(bs, EntriesOf)
      {
        if i < |init| {
          assert bs[i] == init[i];
        } else {
          assert EntriesOf(last)[j] == EntryOf(bs[i].references[j]);
        }
      }
      if d in FlatMap(bs, EntriesOf) {
        if d in FlatMap(init, EntriesOf) {
          var i, j :| 0 <= i < |init| && init[i].good && 0 <= j < |init[i].references|
                      && d == EntryOf(init[i].references[j]);
          assert bs[i] == init[i];
        } else {
          assert d in EntriesOf(last);
          var j :| 0 <= j < |EntriesOf(last)| && EntriesOf(last)[j] == d;
          assert bs[|bs| - 1] == last;
        }
      }
    }
  }

  /** The client: whether a session exists and is connected. `endpoint`
      records, for the contracts only, the address the last connection
      attempt went to; the client keeps no such field. */
  class OPCUAClient {
    /** `GetType().Name` of a value. */
    const typeName: Value -> string
    var connected: bool
    ghost var endpoint: Option<string>

    constructor (typeName: Value -> string)
      ensures this.typeName == typeName && !connected && endpoint.None?
    {
      this.typeName := typeName;
      connected := false;
      endpoint := None;
    }

    /** `ConnectAsync`: the session is created for the normalised address.
        `session` is what `Session.Create` gave: a session and whether it is
        connected, or `None` when it raised, which keeps the old session. */
    method Connect(endpointUrl: string, session: Option<bool>) returns (ok: bool)
      modifies this`connected, this`endpoint
      ensures endpoint == Some(NormalizeEndpoint(endpointUrl))
      ensures session.None? ==> !ok && connected == old(connected)
      ensures session.Some? ==> ok == session.value && connected == session.value
    {
      endpoint := Some(NormalizeEndpoint(endpointUrl));
      if session.None? {
        return false;
      }
      connected := session.value;
      ok := connected;
    }

    /** `Disconnect`: the session is closed and dropped. */
    method Disconnect()
      modifies this`connected
      ensures !connected
    {
      connected := false;
    }

    /** `ReadNodeValuesAsync`: nothing when not connected, or when the read
        raised (`response` is `None`); otherwise the Good results, each
        tagged with the id requested at its position. A result beyond the
        requested ids raises while it is looked at, which ends the loop with
        the entries collected so far. */
    method ReadNodeValues(nodeIds: seq<string>, response: Option<seq<ReadResult>>)
      returns (results: seq<NodeData>)
      ensures !connected || response.None? ==> results == []
      ensures results == ReadAnswer(connected, nodeIds, response, typeName)
    {
      results := [];
      if !connected || response.None? {
        return;
      }
      var rs := response.value;
      var n := if |rs| <= |nodeIds| then |rs| else |nodeIds|;
      var i := 0;
      while i < |rs|
        invariant 0 <= i <= n
        invariant results == Kept(nodeIds, rs[..i], typeName)
      {
        if i >= |nodeIds| {
          break;
        }
        assert rs[..i + 1][..i] == rs[..i];
        var result := rs[i];
        if result.good {
          results := results + [DataOf(nodeIds[i], result, typeName)];
        }
        i := i + 1;
      }
    }

    /** `BrowseNodesAsync`: nothing when not connected or when the browse
        raised; otherwise every reference of every Good result, in order.
        `browse` is the stack's Browse service: what it answers for a start
        node (`None` for the Objects folder), or `None` when it raised. */
    method BrowseNodes(parentNodeId: Option<string>, browse: Option<string> -> Option<seq<BrowseResult>>)
      returns (results: seq<NodeData>)
      ensures var response := browse(BrowseStart(parentNodeId));
              && (!connected || response.None? ==> results == [])
              && (connected && response.Some? ==> results == FlatMap(response.value, EntriesOf))
    {
      results := [];
      if !connected {
        return;
      }
      var response := browse(BrowseStart(parentNodeId));
      if response.None? {
        return;
      }
      var bs := response.value;
      var i := 0;
      while i < |bs|
        invariant 0 <= i <= |bs|
        invariant results == FlatMap(bs[..i], EntriesOf)
      {
        var b := bs[i];
        var before := results;
        if b.good {
          var j := 0;
          while j < |b.references|
            invariant 0 <= j <= |b.references|
            invariant results == before + EntriesOf(b)[..j]
          {
            assert EntriesOf(b)[..j + 1] == EntriesOf(b)[..j] + [EntryOf(b.references[j])];
            results := results + [EntryOf(b.references[j])];
            j := j + 1;
          }
          assert EntriesOf(b)[..j] == EntriesOf(b);
        }
        assert bs[..i + 1] == bs[..i] + [b];
        FlatMapSnoc(bs[..i], b, EntriesOf);
        i := i + 1;
      }
      assert bs[..i] == bs;
    }

    /** `WriteNodeValueAsync`: false when not connected or when the write
        raised (`status` is `None`); otherwise whether the one result is Good. */
    method WriteNodeValue(nodeId: string, value: Value, status: Option<bool>) returns (ok: bool)
      ensures ok <==> connected && status == Some(true)
    {
      if !connected || status.None? {
        return false;
      }
      ok := status.value;
    }
  }
}
