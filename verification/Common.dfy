/** What several models use. */
module Common {

  datatype Option<+V> = None | Some(value: V)

  /** White space in XML and in numbers: the characters 9, 10, 13 and 32. */
  predicate IsSpace(c: char): (space: bool)
    ensures space <==> c as int in {9, 10, 13, 32}
  {
    c == ' ' || c == '\t' || c == '\n' || c == '\r'
  }

  ghost predicate Distinct(l: seq<nat>) {
    forall i, j | 0 <= i < j < |l| :: l[i] != l[j]
  }
}
