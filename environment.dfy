/**
 * The particle layer of src/Environment.jsx: the fixed set of 30 particles built
 * once by `generateParticles`, and how many of them a distress level shows.
 * Colours, sizes of the orb, speeds and opacities are floating-point presentation
 * and are not modelled.
 */
module Environment {
  import opened Js

  /** One particle: `delay` is in seconds, the rest in whole pixels or percent. */
  datatype Particle = Particle(id: int, left: int, delay: real, size: int, driftX: int)

  /** The particle built at index `i` of the loop of `generateParticles`. */
  function ParticleAt(i: nat): (p: Particle)
    ensures p.id == i
    ensures 0 <= p.left <= 99
    ensures 0 <= (i * 53 + 7) % 20 <= 19 && 0.0 <= p.delay <= 1.9 && p.delay == ((i * 53 + 7) % 20) as real / 10.0
    ensures 2 <= p.size <= 7
    ensures -30 <= p.driftX <= 29
  {
    Particle(i, (i * 37 + 13) % 100, ((i * 53 + 7) % 20) as real / 10.0, 2 + (i * 17 + 3) % 6, (i * 41 + 11) % 60 - 30)
  }

  /** `generateParticles(count)`: one particle per index below `count`, in order. */
  method GenerateParticles(count: int) returns (particles: seq<Particle>)
    ensures |particles| == if count > 0 then count else 0
    ensures forall i :: 0 <= i < |particles| ==> particles[i] == ParticleAt(i)
  {
    particles := [];
    var i := 0;
    while i < count
      invariant 0 <= i <= (if count > 0 then count else 0)
      invariant |particles| == i
      invariant forall k :: 0 <= k < i ==> particles[k] == ParticleAt(k)
    {
      particles := particles + [Particle(i, (i * 37 + 13) % 100, ((i * 53 + 7) % 20) as real / 10.0,
        2 + (i * 17 + 3) % 6, (i * 41 + 11) % 60 - 30)];
      i := i + 1;
    }
  }

  /** `ALL_PARTICLES`: the size of the set built once. */
  const ParticleCount := 30

  /** `n * 3` on a JavaScript number. */
  function Triple(n: Num): (r: Num)
    ensures n.Finite? ==> r == Finite(n.x * 3.0)
    ensures !n.Finite? ==> r == n
  {
    if n.Finite? then Finite(n.x * 3.0) else n
  }

  /** `visibleCount = Math.round(distress * 3)`. */
  function VisibleCount(distress: Num): (r: Num)
    ensures !distress.Finite? ==> r == distress
    ensures distress.Finite? ==> r.Finite? && r.x == r.x.Floor as real
  {
    Round(Triple(distress))
  }

  /** ToIntegerOrInfinity on a finite number: the integer part, rounded toward zero. */
  function Truncate(x: real): (k: int)
    ensures x >= 0.0 ==> k == x.Floor
    ensures x < 0.0 ==> k == -((-x).Floor)
  {
    if x >= 0.0 then x.Floor else -((-x).Floor)
  }

  /**
   * The length of `array.slice(0, end)` for an array of `len` elements: NaN is 0,
   * a negative end counts back from the length, and no end goes past it.
   */
  function SliceLength(end: Num, len: nat): (r: nat)
    ensures r <= len
    ensures end.NaN? || end.NegInf? ==> r == 0
    ensures end.PosInf? ==> r == len
    ensures end.Finite? && 0.0 <= end.x ==> r == if end.x.Floor < len then end.x.Floor else len
  {
    match end
    case NaN => 0
    case NegInf => 0
    case PosInf => len
    case Finite(x) =>
      var k := Truncate(x);
      if k < 0 then (if len + k > 0 then len + k else 0)
      else if k < len then k else len
  }

  /** How many particles a distress level shows. */
  function Shown(distress: Num): (r: nat)
    ensures r <= ParticleCount
  {
    SliceLength(VisibleCount(distress), ParticleCount)
  }

  /**
   * For an integer distress in [0,10], `visibleCount` is `3 * distress`, at most
   * 30, so the slice shows exactly that many particles and never runs short.
   */
  lemma ShownForIntegerDistress(d: int)
    requires 0 <= d <= 10
    ensures VisibleCount(Finite(d as real)) == Finite((3 * d) as real)
    ensures 0 <= 3 * d <= ParticleCount && Shown(Finite(d as real)) == 3 * d
  {
    var x := (3 * d) as real;
    assert d as real * 3.0 == x;
    assert (x + 0.5).Floor == 3 * d;
  }

  /** More distress never shows fewer particles. */
  lemma ShownMonotone(d: int, e: int)
    requires 0 <= d <= e <= 10
    ensures Shown(Finite(d as real)) <= Shown(Finite(e as real))
  {
    ShownForIntegerDistress(d);
    ShownForIntegerDistress(e);
  }

  /** Stillness shows no particle; the landing screen, at distress 8, shows 24. */
  lemma ShownAtEnds()
    ensures Shown(Finite(0.0)) == 0 && Shown(Finite(8.0)) == 24 && Shown(Finite(10.0)) == ParticleCount
  {
    ShownForIntegerDistress(0);
    ShownForIntegerDistress(8);
    ShownForIntegerDistress(10);
  }

  /**
   * The distress the controller holds after a reply of a server that clamps
   * (an integer in [0,10], or NaN written out as `null`) shows three particles per
   * point; a `null` distress counts as 0 and shows none, as at stillness.
   */
  lemma ClampedDistressShown(rt: Runtime, n: Num)
    requires n.NaN? || (n.Finite? && 0.0 <= n.x <= 10.0 && n.x == n.x.Floor as real)
    ensures var held := Defined(if n.Finite? then JNumber(n) else JNull);
      ToNumber(rt, held).Ok? && Shown(ToNumber(rt, held).value) == (if n.Finite? then 3 * n.x.Floor else 0)
  {
    if n.Finite? {
      ShownForIntegerDistress(n.x.Floor);
    } else {
      ShownForIntegerDistress(0);
    }
  }
}
