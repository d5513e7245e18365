/**
 * The slice of Jackson's `JsonNode` tree the classifier reads a reply with:
 * field and element lookup, emptiness, and the text of a leaf. The model
 * keeps Jackson's distinction between a Java `null` (what `get` answers when
 * there is nothing there) and the `MissingNode` placeholder (what `path`
 * answers instead), because the first makes the next step throw and the
 * second does not.
 */
module JsonNode {
  import opened JavaLang

  /**
   * A JSON tree. `JMissing` is Jackson's `MissingNode`, and `JNull` is the
   * `NullNode` a literal `null` in the document becomes. A number keeps the
   * text Jackson would print for it.
   */
  datatype Json =
    | JNull
    | JMissing
    | JBool(b: bool)
    | JNum(text: string)
    | JStr(s: string)
    | JArr(elems: seq<Json>)
    | JObj(fields: map<string, Json>)

  /** `has(name)`: only an object can hold a field. */
  predicate Has(node: Json, name: string) {
    node.JObj? && name in node.fields
  }

  /**
   * `path(name)`: the field's value when `node` is an object that holds
   * `name`, and otherwise the missing node. It never answers null.
   */
  function Path(node: Json, name: string): (r: Json)
    ensures Has(node, name) ==> r == node.fields[name]
    ensures !Has(node, name) ==> r == JMissing
  {
    match node
    case JObj(fields) => if name in fields then fields[name] else JMissing
    case _ => JMissing
  }

  /**
   * `get(index)`: the element at `index` of an array, or null (`None`) when
   * `node` is not an array or the index is out of range.
   */
  function Get(node: Json, index: int): (r: Option<Json>)
    ensures r.Some? <==> node.JArr? && 0 <= index < |node.elems|
    ensures r.Some? ==> r.value == node.elems[index]
  {
    match node
    case JArr(elems) => if 0 <= index < |elems| then Some(elems[index]) else None
    case _ => None
  }

  /** `size()`: the number of elements or fields of a container, and zero for every other node. */
  function Size(node: Json): (n: nat)
    ensures node.JArr? ==> n == |node.elems|
    ensures node.JObj? ==> n == |node.fields|
    ensures !node.JArr? && !node.JObj? ==> n == 0
  {
    match node
    case JArr(elems) => |elems|
    case JObj(fields) => |fields|
    case _ => 0
  }

  /**
   * `isEmpty()`: `size() == 0`. A scalar, a null node and the missing node
   * are all empty; a container is empty exactly when it has no entries.
   */
  predicate IsEmpty(node: Json) {
    Size(node) == 0
  }

  /**
   * `asText()`: a string's own characters, `"null"` for the null node, the
   * printed literal of a number or boolean, and the empty string for the
   * missing node and for containers.
   */
  function AsText(node: Json): (t: string)
    ensures node.JStr? ==> t == node.s
    ensures node.JMissing? || node.JArr? || node.JObj? ==> t == ""
    ensures node.JNull? ==> t == "null"
  {
    match node
    case JNull => "null"
    case JMissing => ""
    case JBool(b) => if b then "true" else "false"
    case JNum(text) => text
    case JStr(s) => s
    case JArr(_) => ""
    case JObj(_) => ""
  }

  /** A container is empty exactly when it has no entries; any other node is empty. */
  lemma {:induction false} EmptyMeansNoEntries(node: Json)
    ensures IsEmpty(node) <==> match node
                               case JArr(elems) => elems == []
                               case JObj(fields) => fields == map[]
                               case _ => true
  {
    if node.JObj? && node.fields != map[] {
      var k :| k in node.fields;
      assert k in node.fields.Keys;
    }
  }
}
