/** JSON values as Go decodes them, and the round trip through text that forgets how a number was typed. */
module Json {

  /** YAML integers decode to int64, everything JSON text decodes to float64. */
  datatype Json =
    | Null
    | Bool(b: bool)
    | Int(i: int)
    | Float(x: real)
    | Str(s: string)
    | Arr(items: seq<Json>)
    | Obj(fields: map<string, Json>)

  const MANTISSA := 0x20_0000_0000_0000 // 2^53

  /** The gap between the float64 values around n. */
  function Gap(n: nat): (g: nat)
    ensures g >= 1
  {
    if n < MANTISSA then 1 else 2 * Gap(n / 2)
  }

  /** The float64 nearest to n, ties to even. */
  function RoundNat(n: nat): nat
  {
    var g := Gap(n);
    var q, r := n / g, n % g;
    if 2 * r < g || (2 * r == g && q % 2 == 0) then q * g else (q + 1) * g
  }

  function ToFloat(i: int): real
  {
    if i >= 0 then RoundNat(i) as real else -(RoundNat(-i) as real)
  }

  /** Marshalling to text and unmarshalling into an untyped value: every number comes back as a float64. */
  function Canon(v: Json): Json
  {
    match v
    case Int(i) => Float(ToFloat(i))
    case Arr(items) => Arr(CanonAll(items))
    case Obj(fields) => Obj(map k | k in fields :: Canon(fields[k]))
    case _ => v
  }

  function CanonAll(items: seq<Json>): (r: seq<Json>)
    ensures |r| == |items|
    ensures forall i :: 0 <= i < |items| ==> r[i] == Canon(items[i])
  {
    if items == [] then [] else [Canon(items[0])] + CanonAll(items[1..])
  }

  lemma {:induction false} CanonIsIdempotent(v: Json)
    ensures Canon(Canon(v)) == Canon(v)
  {
    match v
    case Arr(items) =>
      forall i | 0 <= i < |items|
        ensures Canon(Canon(items[i])) == Canon(items[i])
      {
        CanonIsIdempotent(items[i]);
      }
      assert CanonAll(CanonAll(items)) == CanonAll(items);
    case Obj(fields) =>
      forall k | k in fields
        ensures Canon(Canon(fields[k])) == Canon(fields[k])
      {
        CanonIsIdempotent(fields[k]);
      }
    case _ =>
  }

  predicate IsNumber(v: Json)
  {
    v.Int? || v.Float?
  }

  function Number(v: Json): real
    requires IsNumber(v)
  {
    if v.Int? then ToFloat(v.i) else v.x
  }

  /** Equal content, however the numbers are typed, told without any normal form. */
  predicate SameContent(a: Json, b: Json)
  {
    if IsNumber(a) && IsNumber(b) then Number(a) == Number(b)
    else match (a, b)
      case (Arr(xs), Arr(ys)) => |xs| == |ys| && forall i :: 0 <= i < |xs| ==> SameContent(xs[i], ys[i])
      case (Obj(f), Obj(g)) => f.Keys == g.Keys && forall k :: k in f ==> SameContent(f[k], g[k])
      case _ => a == b
  }

  /** Comparing canonical forms decides equal content, in both directions. */
  lemma {:induction false} CanonDecidesContent(a: Json, b: Json)
    ensures Canon(a) == Canon(b) <==> SameContent(a, b)
  {
    match (a, b)
    case (Arr(xs), Arr(ys)) =>
      if |xs| == |ys| {
        forall i | 0 <= i < |xs|
          ensures Canon(xs[i]) == Canon(ys[i]) <==> SameContent(xs[i], ys[i])
        {
          CanonDecidesContent(xs[i], ys[i]);
        }
        ArraysAgree(xs, ys);
      } else {
        assert |CanonAll(xs)| != |CanonAll(ys)|;
      }
    case (Obj(f), Obj(g)) =>
      if f.Keys == g.Keys {
        forall k | k in f
          ensures Canon(f[k]) == Canon(g[k]) <==> SameContent(f[k], g[k])
        {
          CanonDecidesContent(f[k], g[k]);
        }
        ObjectsAgree(f, g);
      } else {
        assert Canon(a).fields.Keys == f.Keys && Canon(b).fields.Keys == g.Keys;
      }
    case _ =>
  }

  lemma ArraysAgree(xs: seq<Json>, ys: seq<Json>)
    requires |xs| == |ys|
    ensures CanonAll(xs) == CanonAll(ys) <==> forall i :: 0 <= i < |xs| ==> Canon(xs[i]) == Canon(ys[i])
  {
    if CanonAll(xs) == CanonAll(ys) {
      forall i | 0 <= i < |xs|
        ensures Canon(xs[i]) == Canon(ys[i])
      {
        assert CanonAll(xs)[i] == CanonAll(ys)[i];
      }
    }
  }

  lemma ObjectsAgree(f: map<string, Json>, g: map<string, Json>)
    requires f.Keys == g.Keys
    ensures Canon(Obj(f)) == Canon(Obj(g)) <==> forall k :: k in f ==> Canon(f[k]) == Canon(g[k])
  {
    var cf, cg := Canon(Obj(f)).fields, Canon(Obj(g)).fields;
    assert forall k :: k in f ==> cf[k] == Canon(f[k]) && cg[k] == Canon(g[k]);
  }

  // ---- which integers float64 tells apart ----

  const HALF := 0x10_0000_0000_0000 // 2^52

  /** The gap is the power of two that scales a number into 53 bits. */
  predicate Scales(n: nat, g: nat)
  {
    HALF * g <= n < MANTISSA * g
  }

  lemma {:induction false} GapScales(n: nat)
    requires n >= MANTISSA
    ensures Scales(n, Gap(n)) && Gap(n) % 2 == 0
    ensures Gap(n) == 2 <==> n < 2 * MANTISSA
    ensures n >= 2 * MANTISSA ==> Gap(n) >= 4 && Gap(n) == 2 * Gap(n / 2)
  {
    if n >= 2 * MANTISSA {
      GapScales(n / 2);
    }
  }

  /** A neighbour in the same range of scale has the same gap. */
  lemma {:induction false} GapOfNeighbour(n: nat, m: nat)
    requires n >= MANTISSA && Scales(m, Gap(n))
    ensures Gap(m) == Gap(n)
    decreases n
  {
    GapScales(n);
    if n >= 2 * MANTISSA {
      GapOfNeighbour(n / 2, m / 2);
    }
  }

  /** At the upper end of the range the gap doubles. */
  lemma {:induction false} GapOfNext(n: nat)
    requires n >= MANTISSA && n + 1 == MANTISSA * Gap(n)
    ensures Gap(n + 1) == 2 * Gap(n)
  {
    GapScales(n);
    if n >= 2 * MANTISSA {
      GapOfNext(n / 2);
    }
  }

  /** Rounding in terms of quotient and remainder. */
  lemma RoundIs(n: nat, g: nat, q: nat, r: nat)
    requires g == Gap(n) && n == q * g + r && r < g
    ensures RoundNat(n) == if 2 * r < g || (2 * r == g && q % 2 == 0) then q * g else (q + 1) * g
  {
    DivisionIsUnique(n, g, q, r);
  }

  lemma Monotone(a: nat, b: nat, g: nat)
    requires a <= b
    ensures a * g <= b * g
  {
  }

  lemma Step(q: nat, g: nat)
    ensures (q + 1) * g == q * g + g
  {
  }

  lemma DivisionIsUnique(n: nat, g: nat, q: nat, r: nat)
    requires n == q * g + r && r < g
    ensures n / g == q && n % g == r
  {
    QuotientUnique(n, g, q, r, n / g, n % g);
  }

  lemma QuotientUnique(n: nat, g: nat, q: nat, r: nat, q': nat, r': nat)
    requires n == q * g + r && r < g && n == q' * g + r' && r' < g
    ensures q == q' && r == r'
  {
    Step(q, g);
    Step(q', g);
    if q < q' {
      Monotone(q + 1, q', g);
    } else if q' < q {
      Monotone(q' + 1, q, g);
    }
  }

  /** A number that is no float64, or whose neighbours are further apart than two, is confused with a neighbour. */
  lemma NeighbourCollides(n: nat) returns (m: nat)
    requires n >= MANTISSA && !(n < 2 * MANTISSA && n % 4 == 2)
    ensures m != n && RoundNat(m) == RoundNat(n)
  {
    GapScales(n);
    var g := Gap(n);
    var q, r := n / g, n % g;
    m := Collides(n, g, q, r);
  }

  lemma Collides(n: nat, g: nat, q: nat, r: nat) returns (m: nat)
    requires n >= MANTISSA && g == Gap(n) && n == q * g + r && r < g && g % 2 == 0
    requires g == 2 && r == 0 ==> q % 2 == 0
    ensures m != n && RoundNat(m) == RoundNat(n)
  {
    RoundIs(n, g, q, r);
    if r != 0 && (2 * r < g || (2 * r == g && q % 2 == 0)) {
      m := n - 1;
      StaysInRange(n, g, q, r, -1);
      RoundIs(m, g, q, r - 1);
    } else if r + 1 < g {
      m := n + 1;
      StaysInRange(n, g, q, r, 1);
      RoundIs(m, g, q, r + 1);
    } else {
      m := n + 1;
      Step(q, g);
      RoundsUpToNext(n, g, q);
    }
  }

  lemma StaysInRange(n: nat, g: nat, q: nat, r: nat, step: int)
    requires n >= MANTISSA && g == Gap(n) && n == q * g + r && r < g && 0 <= r + step < g && -1 <= step <= 1
    ensures n + step >= 0 && Gap(n + step) == g
  {
    GapScales(n);
    QuotientInRange(n, g, q, r);
    Monotone(HALF, q, g);
    Step(q, g);
    Monotone(q + 1, MANTISSA, g);
    GapOfNeighbour(n, n + step);
  }

  lemma QuotientInRange(n: nat, g: nat, q: nat, r: nat)
    requires g > 0 && n == q * g + r && r < g && Scales(n, g)
    ensures HALF <= q < MANTISSA
  {
    if q < HALF { Monotone(q + 1, HALF, g); }
    if q >= MANTISSA { Monotone(MANTISSA, q, g); }
  }

  /** The last number before the next float64 and that float64 itself, which may have the wider gap above it. */
  lemma RoundsUpToNext(n: nat, g: nat, q: nat)
    requires n >= MANTISSA && g == Gap(n) && n + 1 == (q + 1) * g
    ensures RoundNat(n + 1) == (q + 1) * g
  {
    GapScales(n);
    Step(q, g);
    QuotientInRange(n, g, q, g - 1);
    Monotone(HALF, q + 1, g);
    if q + 1 < MANTISSA {
      Step(q + 1, g);
      Monotone(q + 2, MANTISSA, g);
      GapOfNeighbour(n, n + 1);
      RoundIs(n + 1, g, q + 1, 0);
    } else {
      GapOfNext(n);
      RoundIs(n + 1, 2 * g, HALF, 0);
    }
  }

  function Distance(a: int, b: int): nat
  {
    if a <= b then b - a else a - b
  }

  /** `m` gaps are a nearest multiple of the gap, and the even one of two that are as near. */
  ghost predicate Nearest(n: nat, g: nat, m: nat)
  {
    && (forall k: nat :: Distance(m * g, n) <= Distance(k * g, n))
    && (Distance(m * g, n) * 2 == g ==> m % 2 == 0)
  }

  /** Rounding leads to the nearest float64, ties to even. */
  lemma RoundsToNearest(n: nat) returns (m: nat)
    ensures RoundNat(n) == m * Gap(n) && Nearest(n, Gap(n), m)
  {
    var g := Gap(n);
    m := RoundedFrom(n, g, n / g, n % g);
  }

  lemma RoundedFrom(n: nat, g: nat, q: nat, r: nat) returns (m: nat)
    requires g == Gap(n) && n == q * g + r && r < g
    ensures RoundNat(n) == m * g && Nearest(n, g, m)
  {
    RoundIs(n, g, q, r);
    hide Gap, RoundNat;
    var up := !(2 * r < g || (2 * r == g && q % 2 == 0));
    m := if up then q + 1 else q;
    Step(q, g);
    forall k: nat
      ensures Distance(m * g, n) <= Distance(k * g, n)
    {
      if k <= q { Monotone(k, q, g); } else { Monotone(q + 1, k, g); }
      NearestOf(n, g, q * g, r, up, k * g);
    }
    NearestOf(n, g, q * g, r, up, q * g);
  }

  lemma NearestOf(n: nat, g: nat, a: nat, r: nat, up: bool, b: nat)
    requires n == a + r && r < g && (b <= a || b >= a + g) && (if up then 2 * r >= g else 2 * r <= g)
    ensures Distance(if up then a + g else a, n) <= Distance(b, n)
    ensures Distance(if up then a + g else a, n) * 2 == g ==> 2 * r == g
  {
  }

  /** Rounding never leads below 2^53 from above, nor below 2^54 from above that. */
  lemma RoundStaysAbove(n: nat)
    requires n >= MANTISSA
    ensures RoundNat(n) >= MANTISSA && (n >= 2 * MANTISSA ==> RoundNat(n) >= 2 * MANTISSA)
  {
    GapScales(n);
    var g := Gap(n);
    QuotientInRange(n, g, n / g, n % g);
    Monotone(HALF, n / g, g);
    Monotone(n / g, n / g + 1, g);
  }

  /** Below 2^54 rounding is exact on even numbers and takes odd ones to multiples of four. */
  lemma RoundBelow(n: nat)
    requires n < 2 * MANTISSA
    ensures n < MANTISSA ==> RoundNat(n) == n
    ensures n >= MANTISSA ==> if n % 2 == 0 then RoundNat(n) == n else RoundNat(n) % 4 == 0
  {
    if n >= MANTISSA {
      GapScales(n);
      RoundIs(n, 2, n / 2, n % 2);
    }
  }

  /** No other integer is rounded alike. */
  predicate Unmistakable(i: int)
  {
    var n := if i >= 0 then i else -i;
    n < MANTISSA || (n < 2 * MANTISSA && n % 4 == 2)
  }

  /** What is known of the rounded value `r` of `n`, scale by scale. */
  predicate RoundsTo(n: nat, r: nat)
  {
    if n < MANTISSA then r == n
    else if n < 2 * MANTISSA then r >= MANTISSA && if n % 2 == 0 then r == n else r % 4 == 0
    else r >= 2 * MANTISSA
  }

  lemma RoundsSo(n: nat)
    ensures RoundsTo(n, RoundNat(n))
  {
    if n >= MANTISSA { RoundStaysAbove(n); }
    if n < 2 * MANTISSA { RoundBelow(n); }
  }

  lemma SameTarget(n: nat, m: nat, r: nat)
    requires Unmistakable(n) && RoundsTo(n, r) && RoundsTo(m, r)
    ensures m == n
  {
  }

  lemma UnmistakableRounds(n: nat, m: nat)
    requires Unmistakable(n) && RoundNat(n) == RoundNat(m)
    ensures m == n
  {
    RoundsSo(n);
    RoundsSo(m);
    SameTarget(n, m, RoundNat(n));
  }

  lemma ZeroRounds(n: nat)
    ensures RoundNat(n) == 0 <==> n == 0
  {
    RoundsSo(n);
  }

  /**
   Every change of an integer is seen if and only if it is below 2^53 in size, or below 2^54 and twice
   an odd number; any other is confused with one of its neighbours.
   */
  lemma ChangesSeenExactly(i: int)
    ensures (forall j :: SameContent(Int(i), Int(j)) ==> j == i) <==> Unmistakable(i)
  {
    var n := if i >= 0 then i else -i;
    if Unmistakable(i) {
      forall j | SameContent(Int(i), Int(j))
        ensures j == i
      {
        var m := if j >= 0 then j else -j;
        ZeroRounds(n);
        ZeroRounds(m);
        assert RoundNat(n) == RoundNat(m);
        UnmistakableRounds(n, m);
      }
    } else {
      var m := NeighbourCollides(n);
      ZeroRounds(m);
      ZeroRounds(n);
      var j := if i >= 0 then m else -(m as int);
      assert SameContent(Int(i), Int(j)) && j != i;
    }
  }
}
