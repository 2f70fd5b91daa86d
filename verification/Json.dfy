/** JSON values, the trees a cJSON item stands for. */
module Json {
  import opened CText

  datatype Value =
    | Null
    | Bool(b: bool)
    | Number(n: real)
    | Text(s: string)
    | Array(items: seq<Value>)
    | Object(members: seq<Member>)

  datatype Member = Member(name: string, value: Value)

  const INT_MAX := 0x7fff_ffff
  const INT_MIN := -0x8000_0000

  /** A number that `print_number` renders with "%d". */
  predicate IsInt32(n: real) {
    n == n.Floor as real && INT_MIN <= n.Floor <= INT_MAX
  }

  /** The trees whose printed form is specified: 32-bit integers and C strings. */
  predicate Printable(v: Value)
    decreases v
  {
    match v
    case Null => true
    case Bool(_) => true
    case Number(n) => IsInt32(n)
    case Text(s) => NulFree(s)
    case Array(items) => forall x :: x in items ==> Printable(x)
    case Object(members) => forall m :: m in members ==> NulFree(m.name) && Printable(m.value)
  }

  /** What a parser step yields.  `Undefined` marks texts on which the C code leaves its buffers. */
  datatype Outcome<T> = Parsed(value: T, rest: string) | Rejected | Undefined
}
