/** The syntax tree built by the parser. Tables nest only through the value of
    a key/value element; an array element holds a bare token. */
module Ast {
  import opened Tokens

  datatype Expression = Unit(token: Token) | Table(table: Table)

  datatype Statement = Assignment(assignment: AssignmentStatement)

  datatype Table = Table(elements: seq<TableElement>)

  datatype TableElement = KeyValueElement(keyValue: KeyValue) | ArrayElement(token: Token)

  datatype KeyValue = KeyValue(key: Token, value: Expression)

  datatype AssignmentStatement = AssignmentStatement(identifier: Token, value: Expression)

  /** The shape the grammar guarantees: values are unit tokens, keys are
      key-eligible, array entries are unit tokens. */
  predicate WellTyped(e: Expression)
    decreases e
  {
    match e
    case Unit(t) => IsUnit(t)
    case Table(tbl) => forall i :: 0 <= i < |tbl.elements| ==> ElementWellTyped(tbl.elements[i])
  }

  predicate ElementWellTyped(el: TableElement)
    decreases el
  {
    match el
    case ArrayElement(t) => IsUnit(t)
    case KeyValueElement(kv) => IsKey(kv.key) && WellTyped(kv.value)
  }

  /** A table of one element kind only (an empty table qualifies): every
      element is of the kind of the first. */
  predicate SingleKind(els: seq<TableElement>)
  {
    forall i :: 0 <= i < |els| ==> els[i].ArrayElement? == els[0].ArrayElement?
  }

  /** Every table in the tree is of a single element kind. */
  predicate Homogeneous(e: Expression)
    decreases e
  {
    match e
    case Unit(_) => true
    case Table(tbl) =>
      SingleKind(tbl.elements) &&
      forall i :: 0 <= i < |tbl.elements| ==> ElementHomogeneous(tbl.elements[i])
  }

  predicate ElementHomogeneous(el: TableElement)
    decreases el
  {
    match el
    case ArrayElement(_) => true
    case KeyValueElement(kv) => Homogeneous(kv.value)
  }
}
