/** The parsed XML document as the parser sees it: elements with a local
    name, attributes, child elements and their text, and the document-order
    walk `Descendants()` with each element's parent. */
module Xml {
  import opened Wrappers

  /** An element. `value` is `XElement.Value`, the concatenated text inside it. */
  datatype Element = Element(
    name: string,
    attributes: map<string, string>,
    children: seq<Element>,
    value: string)

  /** `(string?)e.Attribute(n)`. */
  function Attribute(e: Element, n: string): (r: Option<string>)
    ensures r.Some? <==> n in e.attributes
    ensures r.Some? ==> r.value == e.attributes[n]
  {
    if n in e.attributes then Some(e.attributes[n]) else None
  }

  /** The `.Value` of the first child with the given local name, if any. */
  function FirstChildValue(cs: seq<Element>, name: string): Option<string> {
    if cs == [] then None
    else if cs[0].name == name then Some(cs[0].value)
    else FirstChildValue(cs[1..], name)
  }

  /** `FirstChildValue` finds a value exactly when some child has the name,
      and then it is the value of the first such child. */
  lemma {:induction false} FirstChildValueSpec(cs: seq<Element>, name: string)
    ensures FirstChildValue(cs, name).None? <==> forall i :: 0 <= i < |cs| ==> cs[i].name != name
    ensures FirstChildValue(cs, name).Some? ==>
              exists i :: 0 <= i < |cs| && cs[i].name == name && cs[i].value == FirstChildValue(cs, name).value
                          && forall j :: 0 <= j < i ==> cs[j].name != name
  {
    if cs != [] && cs[0].name != name {
      FirstChildValueSpec(cs[1..], name);
      if FirstChildValue(cs, name).Some? {
        var i :| 0 <= i < |cs[1..]| && cs[1..][i].name == name && cs[1..][i].value == FirstChildValue(cs, name).value
                 && forall j :: 0 <= j < i ==> cs[1..][j].name != name;
        assert cs[i + 1].name == name;
      } else {
        assert forall i :: 1 <= i < |cs| ==> cs[i] == cs[1..][i - 1];
      }
    }
  }

  /** An element met during the walk, with `XElement.Parent` (None for the root). */
  datatype Located = Located(element: Element, parent: Option<Element>)

  /** Document order: an element, then each child's walk in turn. */
  function Walk(e: Element, parent: Option<Element>): (r: seq<Located>)
    ensures |r| >= 1 && r[0] == Located(e, parent)
    decreases e
  {
    [Located(e, parent)] + WalkAll(e.children, e)
  }

  function WalkAll(cs: seq<Element>, parent: Element): seq<Located>
    decreases cs
  {
    if cs == [] then [] else Walk(cs[0], Some(parent)) + WalkAll(cs[1..], parent)
  }

  /** `XDocument.Descendants()`: every element of the document, root included. */
  function Descendants(root: Element): seq<Located> {
    Walk(root, None)
  }

  /** The walk pairs each element with its true parent: the root with the
      parent it was given, every other element with an element of the walk
      that holds it as a direct child. */
  lemma {:induction false} WalkParents(e: Element, parent: Option<Element>, k: int)
    requires 0 <= k < |Walk(e, parent)|
    ensures k == 0 ==> Walk(e, parent)[k].parent == parent
    ensures k > 0 ==> exists m :: 0 <= m < k && Walk(e, parent)[k].parent == Some(Walk(e, parent)[m].element)
                                  && Walk(e, parent)[k].element in Walk(e, parent)[m].element.children
    decreases e, 1
  {
    if k > 0 {
      WalkAllParents(e.children, e, k - 1);
      var j := k - 1;
      var w := WalkAll(e.children, e);
      assert Walk(e, parent)[k] == w[j];
      if w[j].parent == Some(e) && w[j].element in e.children {
        assert Walk(e, parent)[0].element == e;
      } else {
        var m :| 0 <= m < j && w[j].parent == Some(w[m].element) && w[j].element in w[m].element.children;
        assert Walk(e, parent)[m + 1] == w[m];
      }
    }
  }

  lemma {:induction false} WalkAllParents(cs: seq<Element>, parent: Element, k: int)
    requires 0 <= k < |WalkAll(cs, parent)|
    ensures (WalkAll(cs, parent)[k].parent == Some(parent) && WalkAll(cs, parent)[k].element in cs)
            || exists m :: 0 <= m < k && WalkAll(cs, parent)[k].parent == Some(WalkAll(cs, parent)[m].element)
                           && WalkAll(cs, parent)[k].element in WalkAll(cs, parent)[m].element.children
    decreases cs, 0
  {
    var w0 := Walk(cs[0], Some(parent));
    var rest := WalkAll(cs[1..], parent);
    assert WalkAll(cs, parent) == w0 + rest;
    if k < |w0| {
      WalkParents(cs[0], Some(parent), k);
      assert WalkAll(cs, parent)[k] == w0[k];
      if k > 0 {
        var m :| 0 <= m < k && w0[k].parent == Some(w0[m].element) && w0[k].element in w0[m].element.children;
        assert WalkAll(cs, parent)[m] == w0[m];
      }
    } else {
      WalkAllParents(cs[1..], parent, k - |w0|);
      assert WalkAll(cs, parent)[k] == rest[k - |w0|];
      var j := k - |w0|;
      if !(rest[j].parent == Some(parent) && rest[j].element in cs[1..]) {
        var m :| 0 <= m < j && rest[j].parent == Some(rest[m].element) && rest[j].element in rest[m].element.children;
        assert WalkAll(cs, parent)[m + |w0|] == rest[m];
      }
    }
  }
}
