/** Constants and column values, with an abstract order that both engines share. */
module SqlValues {
  import opened SqlText

  type Magnitude = s: string | IsMagnitude(s) witness (MagnitudeExample(); "1.0")

  /** The printed form of a date or a time: it never holds a single quote. */
  type PlainText = s: string | '\'' !in s

  datatype Value =
    | Null
    | Boolean(b: bool)
    | Integer(n: int)
    | Double(negative: bool, magnitude: Magnitude)
    | Varchar(s: string)
    | Date(date: PlainText)
    | Time(time: PlainText)
    | Timestamp(stamp: PlainText)
    | Opaque(typeName: string)

  datatype Ordering = Less | Equal | Greater

  datatype CompareOp = Eq | Ne | Lt | Gt | Le | Ge

  type Order = (Value, Value) -> Ordering

  predicate Holds(op: CompareOp, o: Ordering) {
    match op
    case Eq => o == Equal
    case Ne => o != Equal
    case Lt => o == Less
    case Gt => o == Greater
    case Le => o != Greater
    case Ge => o != Less
  }

  /** What is assumed of the order the two engines share: integers compare as numbers. */
  ghost predicate OrdersIntegers(ord: Order) {
    forall m: int, n: int {:trigger ord(Integer(m), Integer(n))} ::
      ord(Integer(m), Integer(n)) == if m < n then Less else if m == n then Equal else Greater
  }
}
