/**
 * What a text denotes, by its scalar values and independently of the parser, and
 * exactly when the tree the parser builds is the one denoted.
 */
module JsonMeaning {
  import opened Json
  import opened JsonString
  import opened JsonGrammar
  import opened JsonParser
  import JsonNumber
  import opened CText

  /** The value a syntax tree denotes. */
  function Denotes(x: Syntax): Value
    requires ValidSyntax(x)
    decreases x
  {
    match x
    case SNull => Null
    case STrue => Bool(true)
    case SFalse => Bool(false)
    case SNumber(k) => Number(JsonNumber.TokenValue(k))
    case SString(us) => Text(Meaning(us))
    case SArray(_, es) => Array(ElemsDenoted(es))
    case SObject(_, fs) => Object(FieldsDenoted(fs))
  }

  function ElemsDenoted(es: seq<Elem>): seq<Value>
    requires ValidElems(es)
    decreases es
  {
    if es == [] then [] else [Denotes(es[0].value)] + ElemsDenoted(es[1..])
  }

  function FieldsDenoted(fs: seq<Field>): seq<Member>
    requires ValidFields(fs)
    decreases fs
  {
    if fs == [] then []
    else [Member(Meaning(fs[0].name), Denotes(fs[0].value))] + FieldsDenoted(fs[1..])
  }

  /** Every string and name in the tree is lossless. */
  predicate LosslessTree(x: Syntax)
    decreases x
  {
    match x
    case SString(us) => Lossless(us)
    case SArray(_, es) => LosslessElems(es)
    case SObject(_, fs) => LosslessFields(fs)
    case _ => true
  }

  predicate LosslessElems(es: seq<Elem>)
    decreases es
  {
    es != [] ==> LosslessTree(es[0].value) && LosslessElems(es[1..])
  }

  predicate LosslessFields(fs: seq<Field>)
    decreases fs
  {
    fs != [] ==> Lossless(fs[0].name) && LosslessTree(fs[0].value) && LosslessFields(fs[1..])
  }

  /** The parser builds what the text denotes if and only if all its strings are lossless. */
  lemma {:induction false} BuiltIsDenotedIff(x: Syntax)
    requires ValidSyntax(x)
    ensures Built(x) == Denotes(x) <==> LosslessTree(x)
    decreases x
  {
    match x
    case SString(us) => DecodedIsMeaningIff(us);
    case SArray(_, es) => ElemsIff(es);
    case SObject(_, fs) => FieldsIff(fs);
    case _ =>
  }

  lemma ConsIff<T(!new)>(a: T, b: seq<T>, c: T, d: seq<T>)
    ensures [a] + b == [c] + d <==> a == c && b == d
  {
    if [a] + b == [c] + d {
      assert ([a] + b)[0] == a && ([c] + d)[0] == c;
      assert ([a] + b)[1..] == b && ([c] + d)[1..] == d;
    }
  }

  lemma {:induction false} ElemsIff(es: seq<Elem>)
    requires ValidElems(es)
    ensures ElemValues(es) == ElemsDenoted(es) <==> LosslessElems(es)
    decreases es
  {
    if es != [] {
      BuiltIsDenotedIff(es[0].value);
      ElemsIff(es[1..]);
      ConsIff(Built(es[0].value), ElemValues(es[1..]), Denotes(es[0].value), ElemsDenoted(es[1..]));
    }
  }

  lemma {:induction false} FieldsIff(fs: seq<Field>)
    requires ValidFields(fs)
    ensures FieldValues(fs) == FieldsDenoted(fs) <==> LosslessFields(fs)
    decreases fs
  {
    if fs != [] {
      DecodedIsMeaningIff(fs[0].name);
      BuiltIsDenotedIff(fs[0].value);
      FieldsIff(fs[1..]);
      ConsIff(Member(Decoded(fs[0].name), Built(fs[0].value)), FieldValues(fs[1..]),
              Member(Meaning(fs[0].name), Denotes(fs[0].value)), FieldsDenoted(fs[1..]));
    }
  }

  /** A whole well-formed text parses to what it denotes if and only if all its strings are lossless. */
  lemma DocumentMeansIff(before: string, x: Syntax, after: string, requireEnd: bool)
    requires AllSpace(before) && ValidSyntax(x) && AllSpace(after)
    ensures ParseDocument(before + (SyntaxText(x) + after), requireEnd).Parsed?
    ensures ParseDocument(before + (SyntaxText(x) + after), requireEnd).value == Denotes(x) <==> LosslessTree(x)
  {
    DocumentParses(before, x, after, requireEnd);
    BuiltIsDenotedIff(x);
  }
}
