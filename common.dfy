/** Value types shared by the client and the server model. */
module Common {

  datatype Option<+T> = None | Some(value: T)

  /** A JSON value as org.json and Flask's jsonify build it. An object maps
      each member name to its value; like org.json's JSONObject and a Python
      dict it holds a name at most once and has no member order. */
  datatype Json =
    | JNull
    | JBool(b: bool)
    | JNum(n: real)
    | JStr(s: string)
    | JArr(items: seq<Json>)
    | JObj(members: map<string, Json>)

  /** The value stored under `key` in a JSON object, or None when `j` is not
      an object or has no such member. */
  function Member(j: Json, key: string): (r: Option<Json>)
    ensures r.Some? <==> j.JObj? && key in j.members
    ensures r.Some? ==> r.value == j.members[key]
  {
    if j.JObj? && key in j.members then Some(j.members[key]) else None
  }

  /** A Java/Kotlin `double`: a real number, positive infinity or NaN.
      Negative infinity does not arise in the operations modelled here. */
  datatype Double = Finite(value: real) | PosInfinity | NaN

  /** The Java `==` on doubles: NaN equals nothing, not even itself. */
  predicate DoubleEq(a: Double, b: Double)
  {
    (a.Finite? && b.Finite? && a.value == b.value) || (a.PosInfinity? && b.PosInfinity?)
  }

  /** Sum of a sequence of reals, folded from the left as Kotlin's
      `sum()`/`average()` and the accumulation loops do. */
  function Sum(s: seq<real>): real
  {
    if |s| == 0 then 0.0 else Sum(s[..|s| - 1]) + s[|s| - 1]
  }

  /** Sum of the squares of a sequence of samples, accumulated left to right. */
  function SumSquares(s: seq<real>): real
  {
    if |s| == 0 then 0.0 else SumSquares(s[..|s| - 1]) + s[|s| - 1] * s[|s| - 1]
  }

  lemma {:induction false} SumSquaresNonNegative(s: seq<real>)
    ensures SumSquares(s) >= 0.0
    decreases |s|
  {
    if |s| > 0 {
      SumSquaresNonNegative(s[..|s| - 1]);
    }
  }

  /** A device position as the location services report it. */
  datatype Location = Location(latitude: real, longitude: real)

  /** An HTTP POST of a JSON body to a URL. */
  datatype Post = Post(url: string, body: Json)

  const TWO_31: int := 0x8000_0000
  const TWO_32: int := 0x1_0000_0000

  /** Two's-complement wrap-around of a JVM `Int`. */
  function Wrap32(x: int): (r: int)
    ensures -TWO_31 <= r < TWO_31
  {
    (x + TWO_31) % TWO_32 - TWO_31
  }

  /** Adding a multiple of 2^32 does not change the wrapped value. */
  lemma WrapShift(z: int, m: int)
    ensures Wrap32(z + TWO_32 * m) == Wrap32(z)
  {
    var q := (z + TWO_31) / TWO_32;
    var r := (z + TWO_31) % TWO_32;
    assert z + TWO_32 * m + TWO_31 == TWO_32 * (q + m) + r;
  }

  /** One hash step commutes with wrapping: wrapping the running hash first
      gives the same `Int` as wrapping once at the end. */
  lemma WrapStep(x: int, e: int)
    ensures Wrap32(31 * Wrap32(x) + e) == Wrap32(31 * x + e)
  {
    var q := (x + TWO_31) / TWO_32;
    assert Wrap32(x) == x - TWO_32 * q;
    assert 31 * Wrap32(x) + e == (31 * x + e) + TWO_32 * (-31 * q);
    WrapShift(31 * x + e, -31 * q);
  }
}
