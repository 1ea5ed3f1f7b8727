/**
 * A cell coordinate of the dungeon (Point2D.java): x is the row, y the column.
 */
module Points {

  datatype Point2D = Point2D(x: int, y: int)

  /** What `equals` may be handed: another point, or an object of some other class. */
  datatype Object<T> = Instance(value: T) | OtherClass

  /** Java's `int` range. */
  predicate IsInt32(v: int) {
    -0x8000_0000 <= v < 0x8000_0000
  }

  /** Two's-complement wrap-around of Java `int` arithmetic. */
  function Wrap32(v: int): (r: int)
    ensures IsInt32(r)
    ensures (v - r) % 0x1_0000_0000 == 0
    ensures IsInt32(v) ==> r == v
  {
    var m := v % 0x1_0000_0000;
    if m >= 0x8000_0000 then m - 0x1_0000_0000 else m
  }

  /** Point2D.equals: true exactly for a point with the same coordinates. */
  predicate Equals(p: Point2D, o: Object<Point2D>) {
    match o
    case OtherClass => false
    case Instance(q) => p.x == q.x && p.y == q.y
  }

  lemma EqualsIsValueEquality(p: Point2D, o: Object<Point2D>)
    ensures Equals(p, o) <==> o == Instance(p)
  {
  }

  /** Point2D.hashCode, which is Objects.hash(x, y) = 31 * (31 * 1 + x) + y in `int` arithmetic. */
  function HashCode(p: Point2D): (h: int)
    requires IsInt32(p.x) && IsInt32(p.y)
    ensures IsInt32(h)
  {
    Wrap32(31 * Wrap32(31 + p.x) + p.y)
  }

  /** Equal points hash alike, and the hash is the wrapped value of 961 + 31x + y. */
  lemma {:induction false} HashCodeClosedForm(p: Point2D)
    requires IsInt32(p.x) && IsInt32(p.y)
    ensures HashCode(p) == Wrap32(961 + 31 * p.x + p.y)
  {
    var a := 31 + p.x;
    var w := Wrap32(a);
    var k := (a - w) / 0x1_0000_0000;
    assert a - w == k * 0x1_0000_0000;
    var big := 31 * w + p.y;
    assert 961 + 31 * p.x + p.y == big + (31 * k) * 0x1_0000_0000;
    WrapShift(big, 31 * k);
  }

  lemma {:induction false} WrapShift(v: int, k: int)
    ensures Wrap32(v + k * 0x1_0000_0000) == Wrap32(v)
  {
    assert (v + k * 0x1_0000_0000) % 0x1_0000_0000 == v % 0x1_0000_0000;
  }

  function Digit(d: int): char
    requires 0 <= d < 10
  {
    "0123456789"[d]
  }

  /** Decimal rendering of a natural number, as `%d` prints it. */
  function NatToString(n: nat): (s: string)
    ensures |s| >= 1
    ensures forall i :: 0 <= i < |s| ==> '0' <= s[i] <= '9'
    ensures n > 0 ==> s[0] != '0'
  {
    if n < 10 then [Digit(n)] else NatToString(n / 10) + [Digit(n % 10)]
  }

  /** Decimal rendering of an integer, as `%d` prints it. */
  function IntToString(i: int): string {
    if i < 0 then "-" + NatToString(-i) else NatToString(i)
  }

  /** The value of a string of decimal digits. */
  function DecimalValue(s: string): nat
    requires forall i :: 0 <= i < |s| ==> '0' <= s[i] <= '9'
  {
    if s == [] then 0 else 10 * DecimalValue(s[..|s| - 1]) + (s[|s| - 1] - '0') as int
  }

  /** Reading back the digits `%d` prints gives the number. */
  lemma {:induction false} NatToStringRoundTrip(n: nat)
    ensures DecimalValue(NatToString(n)) == n
  {
    var s := NatToString(n);
    if n >= 10 {
      NatToStringRoundTrip(n / 10);
      assert s[..|s| - 1] == NatToString(n / 10);
    }
  }

  /** Point2D.toString: "(x, y)". */
  function ToString(p: Point2D): (s: string)
    ensures |s| >= 6 && s[0] == '(' && s[|s| - 1] == ')'
    ensures p.x >= 0 && p.y >= 0 ==> s == "(" + NatToString(p.x) + ", " + NatToString(p.y) + ")"
  {
    "(" + IntToString(p.x) + ", " + IntToString(p.y) + ")"
  }

  /** The rendering the tests expect for the cell in row 2, column 1. */
  lemma ToStringExample()
    ensures ToString(Point2D(2, 1)) == "(2, 1)"
  {
  }
}
