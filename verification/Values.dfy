// Pixels, extrema and the totals a set of pixels adds up to.
//
// A float or a double is a real number, an infinity or a NaN; arithmetic on finite values is exact.

module Values {

  datatype Double = Finite(value: real) | PosInf | NegInf | NaN

  // The IEEE order: NaN compares false with everything.
  predicate Less(a: Double, b: Double) {
    match (a, b)
    case (Finite(x), Finite(y)) => x < y
    case (NegInf, Finite(_)) => true
    case (NegInf, PosInf) => true
    case (Finite(_), PosInf) => true
    case (_, _) => false
  }

  // std::min and std::max: the first argument unless the second is strictly better.
  function Min(a: Double, b: Double): Double {
    if Less(b, a) then b else a
  }

  function Max(a: Double, b: Double): Double {
    if Less(a, b) then b else a
  }

  // Addition, exact between finite values.
  function Plus(a: Double, b: Double): Double {
    match (a, b)
    case (Finite(x), Finite(y)) => Finite(x + y)
    case (Finite(_), _) => b
    case (_, Finite(_)) => a
    case (_, _) => if a == b then a else NaN
  }

  // What a running extremum can hold: anything but NaN.
  type Bound = d: Double | !d.NaN? witness PosInf

  lemma MinMaxAreMonoids(a: Bound, b: Bound, c: Bound)
    ensures Min(a, b) == Min(b, a) && Max(a, b) == Max(b, a)
    ensures Min(Min(a, b), c) == Min(a, Min(b, c))
    ensures Max(Max(a, b), c) == Max(a, Max(b, c))
    ensures Min(PosInf, a) == a && Max(NegInf, a) == a
    ensures !Min(a, b).NaN? && !Max(a, b).NaN?
  {}

  // What a set of pixels adds up to: the finite ones, how many are not, the sums over the finite
  // ones and their extrema, which are the identities of min and max when there are none.
  datatype Totals = Totals(good: nat, bad: nat, sum: real, sumSq: real, smallest: Bound, largest: Bound)
  {
    function Plus(other: Totals): Totals {
      MinMaxAreMonoids(smallest, other.smallest, PosInf);
      MinMaxAreMonoids(largest, other.largest, NegInf);
      Totals(good + other.good, bad + other.bad, sum + other.sum, sumSq + other.sumSq,
             Min(smallest, other.smallest), Max(largest, other.largest))
    }
  }

  const Nothing := Totals(0, 0, 0.0, 0.0, PosInf, NegInf)

  function OfPixel(pixel: Double): Totals {
    match pixel
    case Finite(x) => Totals(1, 0, x, x * x, pixel, pixel)
    case _ => Nothing.(bad := 1)
  }

  lemma PlusLaws(a: Totals, b: Totals, c: Totals)
    ensures a.Plus(b) == b.Plus(a)
    ensures a.Plus(b).Plus(c) == a.Plus(b.Plus(c))
    ensures a.Plus(Nothing) == a && Nothing.Plus(a) == a
  {
    MinMaxAreMonoids(a.smallest, b.smallest, c.smallest);
    MinMaxAreMonoids(a.largest, b.largest, c.largest);
    MinMaxAreMonoids(a.smallest, a.smallest, a.smallest);
    MinMaxAreMonoids(a.largest, a.largest, a.largest);
  }

  // A pixel of the plane on the walk's own axes; u is the one the store varies fastest.
  datatype At = At(u: nat, v: nat)

  // The image as every reduction sees it, the mask already folded in: the pixel at (u, v) of one
  // channel.
  type Image = (nat, nat, nat) -> Double

  // The reference answer: the totals of a finite set of pixels of one channel, each counted once.
  ghost function Over(s: set<At>, image: Image, channel: nat): Totals
  {
    if s == {} then Nothing
    else
      var p :| p in s;
      OfPixel(image(p.u, p.v, channel)).Plus(Over(s - {p}, image, channel))
  }

  // Which pixel is taken first does not matter.
  lemma {:induction false} OverTakesAny(s: set<At>, p: At, image: Image, channel: nat)
    requires p in s
    ensures Over(s, image, channel) == OfPixel(image(p.u, p.v, channel)).Plus(Over(s - {p}, image, channel))
    decreases |s|
  {
    var q :| q in s && Over(s, image, channel)
                       == OfPixel(image(q.u, q.v, channel)).Plus(Over(s - {q}, image, channel));
    if q != p {
      var a, b := OfPixel(image(p.u, p.v, channel)), OfPixel(image(q.u, q.v, channel));
      var rest := s - {p} - {q};
      assert s - {q} - {p} == rest;
      OverTakesAny(s - {q}, p, image, channel);
      OverTakesAny(s - {p}, q, image, channel);
      PlusLaws(a, b, Over(rest, image, channel));
      PlusLaws(b, a, Over(rest, image, channel));
    }
  }

  // Totals of disjoint sets add up.
  lemma {:induction false} OverUnion(s: set<At>, t: set<At>, image: Image, channel: nat)
    requires s !! t
    ensures Over(s + t, image, channel) == Over(s, image, channel).Plus(Over(t, image, channel))
    decreases |s|
  {
    hide Totals.Plus;
    var b := Over(t, image, channel);
    if s == {} {
      assert s + t == t;
      PlusLaws(b, Nothing, Nothing);
    } else {
      var p :| p in s;
      var x, a := OfPixel(image(p.u, p.v, channel)), Over(s - {p}, image, channel);
      OverTakesAny(s, p, image, channel);
      OverTakesAny(s + t, p, image, channel);
      assert (s + t) - {p} == (s - {p}) + t;
      OverUnion(s - {p}, t, image, channel);
      PlusLaws(x, a, b);
    }
  }

  // The extrema are infinite exactly when nothing finite was counted.
  lemma {:induction false} OverExtrema(s: set<At>, image: Image, channel: nat)
    ensures var t := Over(s, image, channel);
            && (t.good == 0 ==> t.smallest == PosInf && t.largest == NegInf && t.sum == 0.0 && t.sumSq == 0.0)
            && (t.good > 0 ==> t.smallest.Finite? && t.largest.Finite?)
            && t.good + t.bad == |s|
    decreases |s|
  {
    if s != {} {
      var p :| p in s;
      OverTakesAny(s, p, image, channel);
      OverExtrema(s - {p}, image, channel);
    }
  }

  // The extrema are those of the set: bounds of every finite pixel, and attained.
  lemma {:induction false} OverBounds(s: set<At>, image: Image, channel: nat)
    ensures var t := Over(s, image, channel);
            && (forall p :: p in s && image(p.u, p.v, channel).Finite? ==>
                  !Less(image(p.u, p.v, channel), t.smallest) && !Less(t.largest, image(p.u, p.v, channel)))
            && (t.good > 0 ==>
                  && (exists p :: p in s && image(p.u, p.v, channel) == t.smallest)
                  && (exists p :: p in s && image(p.u, p.v, channel) == t.largest))
    decreases |s|
  {
    if s != {} {
      var p :| p in s;
      var rest := s - {p};
      OverTakesAny(s, p, image, channel);
      OverBounds(rest, image, channel);
      OverExtrema(rest, image, channel);
      OverExtrema(s, image, channel);
      var t, u, x := Over(s, image, channel), Over(rest, image, channel), image(p.u, p.v, channel);
      if u.good > 0 {
        var a :| a in rest && image(a.u, a.v, channel) == u.smallest;
        var b :| b in rest && image(b.u, b.v, channel) == u.largest;
        assert a in s && b in s;
      }
      if t.good > 0 {
        assert t.smallest == x || (u.good > 0 && t.smallest == u.smallest);
        assert t.largest == x || (u.good > 0 && t.largest == u.largest);
      }
    }
  }
}
