/** JSON values and their comparison. Objects are finite maps: the order of their members carries no meaning here. */
module JsonValue {

  type Int64 = n: int | -0x8000_0000_0000_0000 <= n <= 0x7fff_ffff_ffff_ffff
  type UInt64 = n: int | 0 <= n <= 0xffff_ffff_ffff_ffff

  /** A double, with its two zeros identified: no operation here tells them apart. */
  datatype Double = NaN | Infinite(negative: bool) | Finite(value: real)

  datatype Json =
    | Null
    | Boolean(b: bool)
    | Integer(n: Int64)
    | Unsigned(u: UInt64)
    | Float(f: Double)
    | String(s: string)
    | Array(elems: seq<Json>)
    | Object(members: map<string, Json>)
    | Discarded

  const MANTISSA := 0x20_0000_0000_0000  // 2^53

  /** The nearest multiple of a power of two that a double holds, ties to even. */
  function RoundToDouble(n: nat, ulp: nat): nat
    requires ulp > 0
    decreases if n < MANTISSA * ulp then 0 else n - MANTISSA * ulp + 1
  {
    if n >= MANTISSA * ulp then RoundToDouble(n, 2 * ulp) else RoundUp(n / ulp, n % ulp, ulp) * ulp
  }

  function RoundUp(q: nat, r: nat, ulp: nat): nat {
    if 2 * r > ulp || (2 * r == ulp && q % 2 == 1) then q + 1 else q
  }

  function ToDouble(n: int): Double {
    Finite(if n < 0 then -(RoundToDouble(-n, 1) as real) else RoundToDouble(n, 1) as real)
  }

  predicate DoubleEq(x: Double, y: Double) {
    !x.NaN? && x == y
  }

  /** The unsigned number reinterpreted as a signed one. */
  function AsSigned(u: UInt64): Int64 {
    if u <= 0x7fff_ffff_ffff_ffff then u else u - 0x1_0000_0000_0000_0000
  }

  /** Equality as the library defines it: numbers compare across types, NaN and discarded values equal nothing. */
  predicate Eq(a: Json, b: Json) {
    match (a, b)
    case (Array(x), Array(y)) => |x| == |y| && forall i :: 0 <= i < |x| ==> Eq(x[i], y[i])
    case (Object(x), Object(y)) => x.Keys == y.Keys && forall k :: k in x ==> Eq(x[k], y[k])
    case (Null, Null) => true
    case (String(x), String(y)) => x == y
    case (Boolean(x), Boolean(y)) => x == y
    case (Integer(x), Integer(y)) => x == y
    case (Unsigned(x), Unsigned(y)) => x == y
    case (Float(x), Float(y)) => DoubleEq(x, y)
    case (Integer(x), Float(y)) => DoubleEq(ToDouble(x), y)
    case (Float(x), Integer(y)) => DoubleEq(x, ToDouble(y))
    case (Unsigned(x), Float(y)) => DoubleEq(ToDouble(x), y)
    case (Float(x), Unsigned(y)) => DoubleEq(x, ToDouble(y))
    case (Unsigned(x), Integer(y)) => AsSigned(x) == y
    case (Integer(x), Unsigned(y)) => x == AsSigned(y)
    case _ => false
  }

  /** No NaN and nothing discarded, at any depth. */
  predicate Comparable(j: Json) {
    match j
    case Array(x) => forall i :: 0 <= i < |x| ==> Comparable(x[i])
    case Object(x) => forall k :: k in x ==> Comparable(x[k])
    case Float(f) => !f.NaN?
    case Discarded => false
    case _ => true
  }

  /** A value equals itself exactly when it is comparable throughout. */
  lemma {:induction false} SelfEqual(j: Json)
    ensures Eq(j, j) <==> Comparable(j)
  {
    match j
    case Array(x) =>
      forall i | 0 <= i < |x| ensures Eq(x[i], x[i]) <==> Comparable(x[i]) {
        SelfEqual(x[i]);
      }
    case Object(x) =>
      forall k | k in x ensures Eq(x[k], x[k]) <==> Comparable(x[k]) {
        SelfEqual(x[k]);
      }
    case _ =>
  }

  lemma {:induction false} EqualIsComparable(a: Json, b: Json)
    requires Eq(a, b)
    ensures Comparable(a) && Comparable(b)
  {
    match (a, b)
    case (Array(x), Array(y)) =>
      forall i | 0 <= i < |x| ensures Comparable(x[i]) && Comparable(y[i]) {
        EqualIsComparable(x[i], y[i]);
      }
    case (Object(x), Object(y)) =>
      forall k | k in x ensures Comparable(x[k]) && Comparable(y[k]) {
        EqualIsComparable(x[k], y[k]);
      }
    case _ =>
  }

  /**
    What a minimal edit of `s` into `t` arrives at: parts of `s` that already equal their counterpart stay as they
    are, everything else comes from `t`.
  */
  function Merged(s: Json, t: Json): Json {
    if Eq(s, t) then s
    else
      match (s, t)
      case (Array(x), Array(y)) =>
        Array(seq(|y|, i requires 0 <= i < |y| => if i < |x| then Merged(x[i], y[i]) else y[i]))
      case (Object(x), Object(y)) =>
        Object(map k | k in y :: if k in x then Merged(x[k], y[k]) else y[k])
      case _ => t
  }

  /** The edit arrives at something equal to the target exactly when the target equals itself. */
  lemma {:induction false} MergedEqualsTarget(s: Json, t: Json)
    ensures Eq(Merged(s, t), t) <==> Comparable(t)
  {
    if Eq(s, t) {
      EqualIsComparable(s, t);
    } else {
      match (s, t)
      case (Array(x), Array(y)) =>
        var m := Merged(s, t).elems;
        forall i | 0 <= i < |y| ensures Eq(m[i], y[i]) <==> Comparable(y[i]) {
          if i < |x| {
            MergedEqualsTarget(x[i], y[i]);
          } else {
            SelfEqual(y[i]);
          }
        }
      case (Object(x), Object(y)) =>
        var m := Merged(s, t).members;
        forall k | k in y ensures Eq(m[k], y[k]) <==> Comparable(y[k]) {
          if k in x {
            MergedEqualsTarget(x[k], y[k]);
          } else {
            SelfEqual(y[k]);
          }
        }
      case _ => SelfEqual(t);
    }
  }

  /// What equality says

  predicate SameNumberType(a: Json, b: Json) {
    (a.Integer? <==> b.Integer?) && (a.Unsigned? <==> b.Unsigned?) && (a.Float? <==> b.Float?)
  }

  predicate IsNumber(j: Json) {
    j.Integer? || j.Unsigned? || j.Float?
  }

  /** Where numbers meet, at any depth, they are of the same type. */
  predicate NumbersAlike(a: Json, b: Json) {
    match (a, b)
    case (Array(x), Array(y)) => forall i :: 0 <= i < |x| && i < |y| ==> NumbersAlike(x[i], y[i])
    case (Object(x), Object(y)) => forall k :: k in x && k in y ==> NumbersAlike(x[k], y[k])
    case _ => IsNumber(a) && IsNumber(b) ==> SameNumberType(a, b)
  }

  /** Among numbers of like types, values are equal when they are the same and contain no NaN and nothing discarded. */
  lemma {:induction false} EqualIsSame(a: Json, b: Json)
    requires NumbersAlike(a, b)
    ensures Eq(a, b) <==> a == b && Comparable(a)
  {
    if a == b {
      SelfEqual(a);
    } else {
      match (a, b)
      case (Array(x), Array(y)) =>
        if |x| == |y| {
          var i :| 0 <= i < |x| && x[i] != y[i];
          EqualIsSame(x[i], y[i]);
        }
      case (Object(x), Object(y)) =>
        if x.Keys == y.Keys {
          var k :| k in x && x[k] != y[k];
          EqualIsSame(x[k], y[k]);
        }
      case _ =>
    }
  }

  lemma {:induction false} EqualIsSymmetric(a: Json, b: Json)
    ensures Eq(a, b) <==> Eq(b, a)
  {
    match (a, b)
    case (Array(x), Array(y)) =>
      forall i | 0 <= i < |x| && i < |y| ensures Eq(x[i], y[i]) <==> Eq(y[i], x[i]) {
        EqualIsSymmetric(x[i], y[i]);
      }
    case (Object(x), Object(y)) =>
      forall k | k in x && k in y ensures Eq(x[k], y[k]) <==> Eq(y[k], x[k]) {
        EqualIsSymmetric(x[k], y[k]);
      }
    case _ =>
  }

  /** A signed and an unsigned number are equal modulo 2^64: -1 equals 2^64 - 1. */
  lemma SignedMeetsUnsigned(i: Int64, u: UInt64)
    ensures Eq(Integer(i), Unsigned(u)) <==> (i - u) % 0x1_0000_0000_0000_0000 == 0
  {
  }

  /** Up to 2^53 an integer and a double are equal when they are the same number. */
  lemma IntegerMeetsFloat(i: int, f: Double)
    requires -MANTISSA <= i <= MANTISSA
    ensures Eq(Integer(i), Float(f)) <==> f == Finite(i as real)
    ensures i >= 0 ==> (Eq(Unsigned(i), Float(f)) <==> f == Finite(i as real))
  {
    RoundSmall(if i < 0 then -i else i);
  }

  lemma RoundSmall(n: nat)
    requires n <= MANTISSA
    ensures RoundToDouble(n, 1) == n
  {
    if n == MANTISSA {
      assert RoundToDouble(n, 1) == RoundToDouble(n, 2);
    }
  }

  /** Beyond that the conversion rounds, and equality is not transitive. */
  lemma EqualIsNotTransitive()
    ensures
      var a, b, c := Integer(MANTISSA), Float(Finite(MANTISSA as real)), Integer(MANTISSA + 1);
      Eq(a, b) && Eq(b, c) && !Eq(a, c)
  {
    RoundSmall(MANTISSA);
    assert RoundToDouble(MANTISSA + 1, 1) == RoundToDouble(MANTISSA + 1, 2);
  }

  /// Rounding to doubles

  ghost predicate PowerOfTwo(u: nat) {
    u == 1 || (u > 0 && u % 2 == 0 && PowerOfTwo(u / 2))
  }

  function Distance(a: nat, b: nat): nat {
    if a < b then b - a else a - b
  }

  /** Of two powers of two the greater is a multiple of the other. */
  lemma {:induction false} PowersDivide(u: nat, v: nat) returns (k: nat)
    requires PowerOfTwo(u) && PowerOfTwo(v) && u <= v
    ensures v == k * u && (u == v || k >= 2)
    decreases v
  {
    if u == v {
      k := 1;
    } else {
      assert u <= v / 2 by { PowersApart(u, v); }
      var h := PowersDivide(u, v / 2);
      k := 2 * h;
      assert v == 2 * (v / 2) && k * u == 2 * (h * u);
    }
  }

  lemma {:induction false} PowersApart(u: nat, v: nat)
    requires PowerOfTwo(u) && PowerOfTwo(v) && u < v
    ensures u <= v / 2 && PowerOfTwo(v / 2)
  {
    if u > 1 {
      PowersApart(u / 2, v / 2);
    }
  }

  /** The rounded quotient is the nearest one, and the even one where two are as near. */
  lemma NearestQuotient(n: nat, ulp: nat, q: nat, r: nat, c: nat)
    requires n == q * ulp + r && r < ulp
    ensures
      var m := RoundUp(q, r, ulp);
      && Distance(m * ulp, n) <= Distance(c * ulp, n)
      && (2 * Distance(m * ulp, n) == ulp ==> m % 2 == 0)
  {
    assert (q + 1) * ulp == q * ulp + ulp;
    if c <= q {
      Scale(c, q, ulp);
    } else {
      Scale(q + 1, c, ulp);
    }
  }

  lemma DivMod(n: nat, ulp: nat)
    requires ulp > 0
    ensures n == n / ulp * ulp + n % ulp
  {
  }

  lemma NearestMultiple(n: nat, ulp: nat, c: nat)
    requires ulp > 0 && n < MANTISSA * ulp
    ensures Distance(RoundToDouble(n, ulp), n) <= Distance(c * ulp, n)
  {
    DivMod(n, ulp);
    NearestQuotient(n, ulp, n / ulp, n % ulp, c);
  }

  lemma NearestOfCoarse(n: nat, ulp: nat, m: nat, u: nat)
    requires PowerOfTwo(ulp) && PowerOfTwo(u) && ulp <= u && n < MANTISSA * ulp
    ensures Distance(RoundToDouble(n, ulp), n) <= Distance(m * u, n)
  {
    var k := PowersDivide(ulp, u);
    Regroup(m, k, ulp);
    NearestMultiple(n, ulp, m * k);
  }

  lemma Regroup(m: nat, k: nat, ulp: nat)
    ensures m * (k * ulp) == (m * k) * ulp
  {
  }

  lemma NearestOfFine(n: nat, ulp: nat, m: nat, u: nat)
    requires PowerOfTwo(ulp) && PowerOfTwo(u) && u < ulp && m <= MANTISSA && n < MANTISSA * ulp
    requires 2 * n >= MANTISSA * ulp
    ensures Distance(RoundToDouble(n, ulp), n) <= Distance(m * u, n)
  {
    PowersApart(u, ulp);
    NearestMultiple(n, ulp, MANTISSA / 2);
    Scale(m, MANTISSA, u);
  }

  lemma Scale(m: nat, n: nat, u: nat)
    requires m <= n
    ensures m * u <= n * u
  {
  }

  /** The conversion gives the double that is nearest: no multiple `m * u` with 53 binary digits is nearer. */
  lemma {:induction false} RoundIsNearest(n: nat, ulp: nat, m: nat, u: nat)
    requires PowerOfTwo(ulp) && (ulp == 1 || 2 * n >= MANTISSA * ulp)
    requires PowerOfTwo(u) && m <= MANTISSA
    ensures Distance(RoundToDouble(n, ulp), n) <= Distance(m * u, n)
    decreases if n < MANTISSA * ulp then 0 else n - MANTISSA * ulp + 1
  {
    if n >= MANTISSA * ulp {
      RoundIsNearest(n, 2 * ulp, m, u);
    } else if ulp <= u {
      NearestOfCoarse(n, ulp, m, u);
    } else {
      NearestOfFine(n, ulp, m, u);
    }
  }

  lemma QuotientFits(n: nat, ulp: nat, q: nat)
    requires n < MANTISSA * ulp && n >= q * ulp
    ensures q < MANTISSA
  {
    if q >= MANTISSA {
      Scale(MANTISSA, q, ulp);
    }
  }

  lemma RoundedMultiple(n: nat, ulp: nat) returns (m: nat)
    requires ulp > 0 && n < MANTISSA * ulp
    ensures m <= MANTISSA && RoundToDouble(n, ulp) == m * ulp
    ensures 2 * Distance(m * ulp, n) == ulp ==> m % 2 == 0
  {
    DivMod(n, ulp);
    QuotientFits(n, ulp, n / ulp);
    NearestQuotient(n, ulp, n / ulp, n % ulp, 0);
    m := RoundUp(n / ulp, n % ulp, ulp);
  }

  /** And it is such a multiple, an even one where two are as near. */
  lemma {:induction false} RoundIsDouble(n: nat, ulp: nat) returns (m: nat, u: nat)
    requires PowerOfTwo(ulp)
    ensures PowerOfTwo(u) && m <= MANTISSA && RoundToDouble(n, ulp) == m * u
    ensures 2 * Distance(m * u, n) == u ==> m % 2 == 0
    decreases if n < MANTISSA * ulp then 0 else n - MANTISSA * ulp + 1
  {
    if n >= MANTISSA * ulp {
      m, u := RoundIsDouble(n, 2 * ulp);
    } else {
      u := ulp;
      m := RoundedMultiple(n, ulp);
    }
  }

  /// When the edit arrives at the target itself

  /** Numbers that meet and are equal are of the same type. */
  predicate TypesKept(s: Json, t: Json) {
    match (s, t)
    case (Array(x), Array(y)) => forall i :: 0 <= i < |x| && i < |y| ==> TypesKept(x[i], y[i])
    case (Object(x), Object(y)) => forall k :: k in x && k in y ==> TypesKept(x[k], y[k])
    case _ => Eq(s, t) ==> SameNumberType(s, t)
  }

  lemma {:induction false} AlikeKeepsTypes(s: Json, t: Json)
    requires NumbersAlike(s, t)
    ensures TypesKept(s, t)
  {
    match (s, t)
    case (Array(x), Array(y)) =>
      forall i | 0 <= i < |x| && i < |y| ensures TypesKept(x[i], y[i]) {
        AlikeKeepsTypes(x[i], y[i]);
      }
    case (Object(x), Object(y)) =>
      forall k | k in x && k in y ensures TypesKept(x[k], y[k]) {
        AlikeKeepsTypes(x[k], y[k]);
      }
    case _ =>
  }

  /** The edit arrives at the target itself exactly when no number is kept for an equal one of another type. */
  lemma {:induction false} MergedIsTarget(s: Json, t: Json)
    ensures Merged(s, t) == t <==> TypesKept(s, t)
  {
    match (s, t)
    case (Array(x), Array(y)) =>
      forall i | 0 <= i < |x| && i < |y| ensures Merged(x[i], y[i]) == y[i] <==> TypesKept(x[i], y[i]) {
        MergedIsTarget(x[i], y[i]);
      }
      MergedArray(x, y);
    case (Object(x), Object(y)) =>
      forall k | k in x && k in y ensures Merged(x[k], y[k]) == y[k] <==> TypesKept(x[k], y[k]) {
        MergedIsTarget(x[k], y[k]);
      }
      MergedObject(x, y);
    case _ =>
  }

  lemma MergedArray(x: seq<Json>, y: seq<Json>)
    ensures Merged(Array(x), Array(y)) == Array(y) <==>
            forall i :: 0 <= i < |x| && i < |y| ==> Merged(x[i], y[i]) == y[i]
  {
    var m := Merged(Array(x), Array(y)).elems;
    assert |m| == |y| && forall i :: 0 <= i < |y| ==> m[i] == if i < |x| then Merged(x[i], y[i]) else y[i];
    if forall i :: 0 <= i < |x| && i < |y| ==> Merged(x[i], y[i]) == y[i] {
      assert m == y;
    }
  }

  lemma MergedObject(x: map<string, Json>, y: map<string, Json>)
    ensures Merged(Object(x), Object(y)) == Object(y) <==>
            forall k :: k in x && k in y ==> Merged(x[k], y[k]) == y[k]
  {
    var m := Merged(Object(x), Object(y)).members;
    assert m.Keys == y.Keys && forall k :: k in y ==> m[k] == if k in x then Merged(x[k], y[k]) else y[k];
    if forall k :: k in x && k in y ==> Merged(x[k], y[k]) == y[k] {
      assert m == y;
    }
  }
}
