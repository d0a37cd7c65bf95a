/** The error and result values the algebra returns instead of Go's `error`. */
module Results {

  /** The single error of the core: `ErrIncompatibleLengths`. */
  datatype Error = IncompatibleLengths

  datatype Result<+T> = Ok(value: T) | Err(error: Error)
}

/**
  The edit primitives (operation.go). `Operation` is a closed sum type in the
  source (an unexported marker method keeps other types out), so it is a
  datatype here. The counts are `uint64` there, hence `nat`; an insert's text
  is a sequence of runes, one `char` per rune.
 */
module Operations {

  datatype Op = Retain(n: nat) | Insert(s: seq<char>) | Delete(n: nat)

  /** How many document characters the operation reads. */
  function Consumed(op: Op): nat {
    match op
    case Retain(n) => n
    case Insert(_) => 0
    case Delete(n) => n
  }

  /** How many characters the operation writes. */
  function Produced(op: Op): nat {
    match op
    case Retain(n) => n
    case Insert(s) => |s|
    case Delete(_) => 0
  }

  /** The length the builders test against zero: the count, or the rune count of the text. */
  function Size(op: Op): nat {
    match op
    case Retain(n) => n
    case Insert(s) => |s|
    case Delete(n) => n
  }

  /**
    Which kind may come right after which in a normalised sequence: never two
    of the same kind, and a delete is never followed by an insert (the
    builder moves such an insert in front of the delete).
   */
  predicate MayFollow(a: Op, b: Op) {
    match a
    case Retain(_) => !b.Retain?
    case Insert(_) => !b.Insert?
    case Delete(_) => b.Retain?
  }
}
