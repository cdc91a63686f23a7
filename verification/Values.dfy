/** The BSON values a `meta` field can hold, with the two comparisons MongoDB makes on them. */
module Values {
  import opened Bytes

  datatype Value =
    | Null
    | Str(s: text)
    | ObjectId(id: text)
    | Bool(b: bool)

  /** BSON's comparison order puts whole types before each other. */
  function Bracket(v: Value): nat {
    match v
    case Null => 0
    case Str(_) => 1
    case ObjectId(_) => 2
    case Bool(_) => 3
  }

  /** The order `$sort` uses: by type first, then by value. */
  predicate Before(a: Value, b: Value) {
    if Bracket(a) != Bracket(b) then Bracket(a) < Bracket(b)
    else match a
      case Null => false
      case Str(s) => Less(s, b.s)
      case ObjectId(o) => Less(o, b.id)
      case Bool(x) => !x && b.b
  }

  /** `$gt`: later in the order, but only within one type. */
  predicate Gt(v: Value, bound: Value) {
    Bracket(v) == Bracket(bound) && Before(bound, v)
  }

  lemma BeforeIrreflexive(a: Value)
    ensures !Before(a, a)
  {
    match a
    case Str(s) => LessIrreflexive(s);
    case ObjectId(o) => LessIrreflexive(o);
    case _ =>
  }

  lemma BeforeTransitive(a: Value, b: Value, c: Value)
    requires Before(a, b) && Before(b, c)
    ensures Before(a, c)
  {
    if Bracket(a) == Bracket(b) == Bracket(c) {
      match a
      case Str(s) => LessTransitive(s, b.s, c.s);
      case ObjectId(o) => LessTransitive(o, b.id, c.id);
      case _ =>
    }
  }

  lemma BeforeTotal(a: Value, b: Value)
    ensures a == b || Before(a, b) || Before(b, a)
  {
    if Bracket(a) == Bracket(b) {
      match a
      case Str(s) => LessTotal(s, b.s);
      case ObjectId(o) => LessTotal(o, b.id);
      case _ =>
    }
  }

  /** BSON's comparison order on the values modelled: null, then strings and ObjectIds byte by byte, then booleans with
      false first. */
  lemma BeforeIs(a: Value, b: Value)
    ensures a.Null? ==> (Before(a, b) <==> !b.Null?)
    ensures a.Str? && b.Str? ==> (Before(a, b) <==> Less(a.s, b.s))
    ensures a.Str? && !b.Str? ==> (Before(a, b) <==> b.ObjectId? || b.Bool?)
    ensures a.ObjectId? && b.ObjectId? ==> (Before(a, b) <==> Less(a.id, b.id))
    ensures a.ObjectId? && !b.ObjectId? ==> (Before(a, b) <==> b.Bool?)
    ensures a.Bool? ==> (Before(a, b) <==> a == Bool(false) && b == Bool(true))
  {
  }
}
