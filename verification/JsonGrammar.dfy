/**
 * The JSON grammar of RFC 8259 as concrete syntax trees: every well-formed,
 * comment-free text is `SyntaxText(x)` of a valid tree `x`, white space included.
 */
module JsonGrammar {
  import opened CText
  import opened Json
  import opened JsonString
  import JsonNumber

  datatype Syntax =
    | SNull
    | STrue
    | SFalse
    | SNumber(token: JsonNumber.Token)
    | SString(units: seq<Item>)
    | SArray(gap: string, elems: seq<Elem>)
    | SObject(gap: string, fields: seq<Field>)

  datatype Elem = Elem(before: string, value: Syntax, after: string)

  datatype Field = Field(before: string, name: seq<Item>, beforeColon: string,
                         afterColon: string, value: Syntax, after: string)

  predicate ValidSyntax(x: Syntax)
    decreases x
  {
    match x
    case SNull => true
    case STrue => true
    case SFalse => true
    case SNumber(k) => JsonNumber.Valid(k)
    case SString(us) => ValidItems(us)
    case SArray(gap, es) => AllSpace(gap) && ValidElems(es)
    case SObject(gap, fs) => AllSpace(gap) && ValidFields(fs)
  }

  predicate ValidElems(es: seq<Elem>)
    decreases es
  {
    es != [] ==>
      AllSpace(es[0].before) && ValidSyntax(es[0].value) && AllSpace(es[0].after) && ValidElems(es[1..])
  }

  predicate ValidFields(fs: seq<Field>)
    decreases fs
  {
    fs != [] ==>
      && AllSpace(fs[0].before) && ValidItems(fs[0].name) && AllSpace(fs[0].beforeColon)
      && AllSpace(fs[0].afterColon) && ValidSyntax(fs[0].value) && AllSpace(fs[0].after)
      && ValidFields(fs[1..])
  }

  /** The text of a syntax tree. */
  function SyntaxText(x: Syntax): string
    decreases x
  {
    match x
    case SNull => "null"
    case STrue => "true"
    case SFalse => "false"
    case SNumber(k) => JsonNumber.TokenText(k)
    case SString(us) => Quoted(us)
    case SArray(gap, es) => if es == [] then "[" + (gap + "]") else "[" + (ElemsText(es) + "]")
    case SObject(gap, fs) => if fs == [] then "{" + (gap + "}") else "{" + (FieldsText(fs) + "}")
  }

  function ElemsText(es: seq<Elem>): string
    decreases es
  {
    if es == [] then ""
    else
      es[0].before + (SyntaxText(es[0].value) + (es[0].after +
        (if |es| == 1 then "" else "," + ElemsText(es[1..]))))
  }

  function FieldsText(fs: seq<Field>): string
    decreases fs
  {
    if fs == [] then ""
    else
      fs[0].before + (Quoted(fs[0].name) + (fs[0].beforeColon + (":" + (fs[0].afterColon +
        (SyntaxText(fs[0].value) + (fs[0].after +
          (if |fs| == 1 then "" else "," + FieldsText(fs[1..]))))))))
  }

  /** The value the parser builds from a syntax tree, its strings decoded unit by unit. */
  function Built(x: Syntax): Value
    requires ValidSyntax(x)
    decreases x
  {
    match x
    case SNull => Null
    case STrue => Bool(true)
    case SFalse => Bool(false)
    case SNumber(k) => Number(JsonNumber.TokenValue(k))
    case SString(us) => Text(Decoded(us))
    case SArray(_, es) => Array(ElemValues(es))
    case SObject(_, fs) => Object(FieldValues(fs))
  }

  function ElemValues(es: seq<Elem>): seq<Value>
    requires ValidElems(es)
    decreases es
  {
    if es == [] then [] else [Built(es[0].value)] + ElemValues(es[1..])
  }

  function FieldValues(fs: seq<Field>): seq<Member>
    requires ValidFields(fs)
    decreases fs
  {
    if fs == [] then []
    else [Member(Decoded(fs[0].name), Built(fs[0].value))] + FieldValues(fs[1..])
  }
}
