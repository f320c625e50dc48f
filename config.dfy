/**
 * The `devcontainer.json` document and the rewrite `adjustPorts` makes of it.
 *
 * The document is kept as parsed structure, not as text: a file's content is either
 * a parsed JSON value or text that `JSON.parse` rejects.
 */
module Config {
  import opened Wrappers
  import Ports

  /**
   * A parsed JSON value. Anywhere in the document, numbers are integers and arrays hold
   * integers only.
   */
  datatype Value =
    | Null
    | Bool(b: bool)
    | Number(n: int)
    | Text(s: string)
    | IntArray(items: seq<int>)
    | Object(fields: map<string, Value>)

  /** What a configuration file holds: a well-formed JSON document, or text that is not. */
  datatype Content = Json(doc: Value) | Plain(text: string)

  datatype ConfigError =
    | ParseError    // `JSON.parse` throws
    | NullDocument  // the document is `null`, and reading `config.forwardPorts` throws

  const ForwardPorts: string := "forwardPorts"

  /**
   * The guard `config.forwardPorts && Array.isArray(config.forwardPorts)`: the document
   * is an object whose `forwardPorts` field is an array (an empty array is truthy too).
   * An object whose `forwardPorts` is missing or is no array fails it, the first test or
   * `Array.isArray` rejecting the value, and so does every non-null value that is not an
   * object, on which the property read yields `undefined`.
   */
  predicate HasPortList(doc: Value) {
    doc.Object? && ForwardPorts in doc.fields && doc.fields[ForwardPorts].IntArray?
  }

  /**
   * The document `adjustPorts` serializes back: without a port list it is the parsed
   * document itself; with one, the same object with the same keys, every key but
   * `forwardPorts` keeping its value and the list replaced by its allocation.
   */
  function Adjusted(doc: Value, used: set<int>): (out: Value)
    ensures !HasPortList(doc) ==> out == doc
    ensures HasPortList(doc) ==>
              && HasPortList(out)
              && out.fields.Keys == doc.fields.Keys
              && (forall k :: k in doc.fields && k != ForwardPorts ==> out.fields[k] == doc.fields[k])
              && out.fields[ForwardPorts].items == Ports.Allocate(doc.fields[ForwardPorts].items, used).ports
  {
    if HasPortList(doc) then
      Object(doc.fields[ForwardPorts := IntArray(Ports.Allocate(doc.fields[ForwardPorts].items, used).ports)])
    else
      doc
  }

  /**
   * The ports of a rewritten document are pairwise distinct and avoid `used`, and each
   * is at or above the port it replaces.
   */
  lemma AdjustedPortsDistinct(doc: Value, used: set<int>)
    requires HasPortList(doc)
    ensures HasPortList(Adjusted(doc, used))
    ensures var before := doc.fields[ForwardPorts].items;
            var after := Adjusted(doc, used).fields[ForwardPorts].items;
            && |after| == |before|
            && (forall i :: 0 <= i < |after| ==> before[i] <= after[i] && after[i] !in used)
            && (forall i, j :: 0 <= i < j < |after| ==> after[i] != after[j])
  {
    var before := doc.fields[ForwardPorts].items;
    var after := Adjusted(doc, used).fields[ForwardPorts].items;
    forall i | 0 <= i < |after|
      ensures before[i] <= after[i] && after[i] !in used
    {
      Ports.AllocatePosition(before, used, i);
      Ports.AllocateAvoidsUsed(before, used, i);
    }
    forall i, j | 0 <= i < j < |after|
      ensures after[i] != after[j]
    {
      Ports.AllocateDistinct(before, used, i, j);
    }
  }

  /**
   * `adjustPorts`: parse the content, re-assign its `forwardPorts` against `usedPorts`
   * (threading the set through in place), and serialize the document again.
   */
  method AdjustPorts(content: Content, usedPorts: set<int>)
    returns (r: Result<Content, ConfigError>, usedAfter: set<int>)
    ensures content.Plain? ==> r == Failure(ParseError) && usedAfter == usedPorts
    ensures content == Json(Null) ==> r == Failure(NullDocument) && usedAfter == usedPorts
    ensures r.Success? <==> content.Json? && content.doc != Null
    ensures r.Success? ==> r.value == Json(Adjusted(content.doc, usedPorts))
    // With a port list: the list is replaced by its allocation, and the set grows by it.
    ensures content.Json? && HasPortList(content.doc) ==>
              var a := Ports.Allocate(content.doc.fields[ForwardPorts].items, usedPorts);
              && r.Success?
              && r.value.doc.Object?
              && ForwardPorts in r.value.doc.fields
              && r.value.doc.fields[ForwardPorts] == IntArray(a.ports)
              && usedAfter == a.used
    // Without one (absent, or not an array): the document and the set are untouched.
    ensures content.Json? && content.doc != Null && !HasPortList(content.doc) ==>
              r == Success(content) && usedAfter == usedPorts
    // Every key other than `forwardPorts` keeps its value, and no key appears or disappears.
    ensures r.Success? && content.doc.Object? ==>
              && r.value.doc.Object?
              && r.value.doc.fields.Keys == content.doc.fields.Keys
              && forall k :: k in content.doc.fields && k != ForwardPorts ==>
                   r.value.doc.fields[k] == content.doc.fields[k]
  {
    usedAfter := usedPorts;
    if content.Plain? {
      return Failure(ParseError), usedAfter;
    }
    var config := content.doc;
    if config.Null? {
      return Failure(NullDocument), usedAfter;
    }
    if HasPortList(config) {
      var newPorts;
      newPorts, usedAfter := Ports.AdjustPortList(config.fields[ForwardPorts].items, usedAfter);
      config := Object(config.fields[ForwardPorts := IntArray(newPorts)]);
    }
    r := Success(Json(config));
  }
}
