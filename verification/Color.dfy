/**
 Colours: from red, green and blue to hue, saturation and lightness and back, over exact reals.
 */
module Color {
  import opened Division

  datatype Rgb = Rgb(r: real, g: real, b: real)
  datatype Bytes = Bytes(r: int, g: int, b: int)

  function Max(a: real, b: real): real {
    if a >= b then a else b
  }

  function Min(a: real, b: real): real {
    if a <= b then a else b
  }

  /** `Math.round`. */
  function Round(x: real): int {
    (x + 0.5).Floor
  }

  /** `x % 1` for a number that is not negative. */
  function Fraction(x: real): (f: real)
    requires 0.0 <= x
    ensures 0.0 <= f < 1.0
  {
    x - x.Floor as real
  }

  /** `x % 1`: the remainder takes the sign of the dividend. */
  function Remainder(x: real): (f: real)
    ensures -1.0 < f < 1.0 && (0.0 <= x ==> f == Fraction(x))
  {
    if 0.0 <= x then Fraction(x) else -Fraction(-x)
  }

  /** `hue2rgb`. */
  function Hue2Rgb(p: real, q: real, hue: real): real {
    var h := Remainder(hue + 1.0);
    if h * 6.0 < 1.0 then p + (q - p) * h * 6.0
    else if h * 2.0 < 1.0 then q
    else if h * 3.0 < 2.0 then p + (q - p) * (2.0 / 3.0 - h) * 6.0
    else p
  }

  /** The hue in degrees before it is rounded. */
  function HueOf(c: Rgb): real {
    var max, min := Max(c.r, Max(c.g, c.b)), Min(c.r, Min(c.g, c.b));
    if min == max then 0.0
    else if c.r == max then 60.0 * (c.g - c.b) / (max - min) + 360.0
    else if c.g == max then 60.0 * (c.b - c.r) / (max - min) + 120.0
    else 60.0 * (c.r - c.g) / (max - min) + 240.0
  }

  /** `spaces.hsla.to`, for channels 0..255: the hue in whole degrees, saturation and lightness in 0..1. */
  function ToHsl(c: Bytes): (int, real, real)
    requires 0 <= c.r <= 255 && 0 <= c.g <= 255 && 0 <= c.b <= 255
  {
    var u := Rgb(c.r as real / 255.0, c.g as real / 255.0, c.b as real / 255.0);
    var max, min := Max(u.r, Max(u.g, u.b)), Min(u.r, Min(u.g, u.b));
    var diff, add := max - min, max + min;
    var l := add * 0.5;
    var s := if diff == 0.0 then 0.0 else if l <= 0.5 then diff / add else diff / (2.0 - add);
    (Round(HueOf(u)) % 360, s, l)
  }

  /** The two levels between which the channels move. */
  function Upper(s: real, l: real): real {
    if l <= 0.5 then l * (1.0 + s) else l + s - l * s
  }

  function Lower(s: real, l: real): real {
    2.0 * l - Upper(s, l)
  }

  /** `spaces.hsla.from`. */
  function FromHsl(hue: int, s: real, l: real): Bytes {
    var h, q, p := hue as real / 360.0, Upper(s, l), Lower(s, l);
    Bytes(Round(Hue2Rgb(p, q, h + 1.0 / 3.0) * 255.0),
          Round(Hue2Rgb(p, q, h) * 255.0),
          Round(Hue2Rgb(p, q, h - 1.0 / 3.0) * 255.0))
  }

  // ---------- the wave of hue2rgb ----------

  /** One period of the wave, between 0 and 1. */
  function Wave(t: real): (w: real)
    requires 0.0 <= t < 1.0
    ensures 0.0 <= w <= 1.0
  {
    if t * 6.0 < 1.0 then 6.0 * t
    else if t * 2.0 < 1.0 then 1.0
    else if t * 3.0 < 2.0 then 4.0 - 6.0 * t
    else 0.0
  }

  function PeriodicWave(x: real): (w: real)
    requires 0.0 <= x
    ensures 0.0 <= w <= 1.0
  {
    Wave(Fraction(x))
  }

  lemma FractionOf(x: real, n: int, f: real)
    requires 0.0 <= x && x == n as real + f && 0.0 <= f < 1.0
    ensures Fraction(x) == f
  {
    var k := x.Floor;
    assert (k - n) as real == k as real - n as real;
  }

  lemma Hue2RgbIs(p: real, q: real, hue: real)
    requires -1.0 <= hue
    ensures Hue2Rgb(p, q, hue) == p + (q - p) * PeriodicWave(hue + 1.0)
  {
  }

  /** The wave has slope 6 at most, across the ends of its period too. */
  lemma WaveIsGentle(x: real, y: real, e: real)
    requires 0.0 <= x && 0.0 <= y && x - e <= y <= x + e && 0.0 <= e <= 1.0 / 6.0
    ensures PeriodicWave(x) - 6.0 * e <= PeriodicWave(y) <= PeriodicWave(x) + 6.0 * e
  {
    if x <= y {
      WaveStep(x, y, e);
    } else {
      WaveStep(y, x, e);
    }
  }

  lemma WaveStep(x: real, y: real, e: real)
    requires 0.0 <= x <= y <= x + e && e <= 1.0 / 6.0
    ensures PeriodicWave(x) - 6.0 * e <= PeriodicWave(y) <= PeriodicWave(x) + 6.0 * e
  {
    var n := x.Floor;
    if y.Floor == n {
      SameTurn(Fraction(x), Fraction(y), e);
    } else {
      assert y.Floor == n + 1;
      NextTurn(Fraction(x), Fraction(y), e);
    }
  }

  lemma SameTurn(a: real, b: real, e: real)
    requires 0.0 <= a <= b < 1.0 && b <= a + e
    ensures Wave(a) - 6.0 * e <= Wave(b) <= Wave(a) + 6.0 * e
  {
  }

  lemma NextTurn(a: real, b: real, e: real)
    requires 0.0 <= a < 1.0 && 0.0 <= b < 1.0 && b + 1.0 <= a + e && e <= 1.0 / 6.0
    ensures Wave(a) - 6.0 * e <= Wave(b) <= Wave(a) + 6.0 * e
  {
  }

  lemma WavePeriod(x: real, k: int)
    requires 0.0 <= x && 0.0 <= x + k as real
    ensures PeriodicWave(x + k as real) == PeriodicWave(x)
  {
    FractionOf(x + k as real, x.Floor + k, Fraction(x));
  }

  /** So `hue2rgb` changes by at most 6 (q - p) times the change of the hue, round the circle too. */
  lemma Hue2RgbIsGentle(p: real, q: real, a: real, b: real, e: real)
    requires p <= q && -1.0 <= a && -1.0 <= b && a - e <= b <= a + e
    ensures Hue2Rgb(p, q, a) - 6.0 * (q - p) * e <= Hue2Rgb(p, q, b) <= Hue2Rgb(p, q, a) + 6.0 * (q - p) * e
  {
    hide Hue2Rgb, PeriodicWave;
    Hue2RgbIs(p, q, a);
    Hue2RgbIs(p, q, b);
    var w, v := PeriodicWave(a + 1.0), PeriodicWave(b + 1.0);
    if e <= 1.0 / 6.0 {
      WaveIsGentle(a + 1.0, b + 1.0, e);
    }
    GentleFrom(p, q - p, w, v, e, Hue2Rgb(p, q, a), Hue2Rgb(p, q, b));
  }

  lemma GentleFrom(p: real, d: real, w: real, v: real, e: real, x: real, y: real)
    requires 0.0 <= d && w - 6.0 * e <= v <= w + 6.0 * e && x == p + d * w && y == p + d * v
    ensures x - 6.0 * d * e <= y <= x + 6.0 * d * e
  {
    Stretched(d, w, v, 6.0 * e);
    assert d * (6.0 * e) == 6.0 * d * e;
  }

  lemma Stretched(d: real, w: real, v: real, e: real)
    requires 0.0 <= d && w - e <= v <= w + e
    ensures d * w - d * e <= d * v <= d * w + d * e
  {
    Product(d, v - w + e);
    Product(d, w + e - v);
    assert d * (v - w + e) == d * v - d * w + d * e;
    assert d * (w + e - v) == d * w + d * e - d * v;
  }

  // ---------- the exact hue gives the exact channels ----------

  /** A third of a period ahead of the largest channel's place. */
  lemma AtTop(x: real, n: int, u: real)
    requires 0.0 <= x && x == n as real + 1.0 / 3.0 + u / 6.0 && -1.0 <= u <= 1.0
    ensures PeriodicWave(x) == 1.0
  {
    FractionOf(x, n, 1.0 / 3.0 + u / 6.0);
  }

  lemma Rising(x: real, n: int, u: real)
    requires 0.0 <= x && x == n as real + u / 6.0 && -1.0 <= u <= 1.0
    ensures PeriodicWave(x) == Max(u, 0.0)
  {
    if 0.0 <= u {
      FractionOf(x, n, u / 6.0);
    } else {
      FractionOf(x, n - 1, 1.0 + u / 6.0);
    }
  }

  lemma Falling(x: real, n: int, u: real)
    requires 0.0 <= x && x == n as real + 2.0 / 3.0 + u / 6.0 && -1.0 <= u <= 1.0
    ensures PeriodicWave(x) == Max(-u, 0.0)
  {
    FractionOf(x, n, 2.0 / 3.0 + u / 6.0);
  }

  /** How far a channel stands above the smallest, in parts of the span. */
  function Share(x: real, min: real, span: real): real
    requires span > 0.0
  {
    (x - min) / span
  }

  /** The difference of the two other channels, in parts of the span. */
  lemma Shares(a: real, b: real, max: real, min: real, u: real)
    requires min <= a <= max && min <= b <= max && min < max && (a == min || b == min) && u == (a - b) / (max - min)
    ensures -1.0 <= u <= 1.0
    ensures Share(a, min, max - min) == Max(u, 0.0) && Share(b, min, max - min) == Max(-u, 0.0)
    ensures Share(max, min, max - min) == 1.0
  {
    var d := max - min;
    assert u * d == a - b;
    if b == min {
      UnitQuotient(a - b, d);
    } else {
      UnitQuotient(b - a, d);
      NegatedQuotient(a, b, d);
    }
  }

  lemma RedPlaces(max: real, g: real, b: real, min: real, t: real)
    requires min <= g <= max && min <= b <= max && min < max && (g == min || b == min)
    requires t == (60.0 * (g - b) / (max - min) + 360.0) / 360.0
    ensures 5.0 / 6.0 <= t <= 7.0 / 6.0
    ensures PeriodicWave(t + 1.0 / 3.0 + 1.0) == Share(max, min, max - min)
    ensures PeriodicWave(t + 1.0) == Share(g, min, max - min)
    ensures PeriodicWave(t - 1.0 / 3.0 + 1.0) == Share(b, min, max - min)
  {
    hide PeriodicWave, Share;
    var u := (g - b) / (max - min);
    Shares(g, b, max, min, u);
    Sixtieth(g - b, max - min, u, 360.0, t);
    AtTop(t + 1.0 / 3.0 + 1.0, 2, u);
    Rising(t + 1.0, 2, u);
    Falling(t - 1.0 / 3.0 + 1.0, 1, u);
  }

  lemma GreenPlaces(r: real, max: real, b: real, min: real, t: real)
    requires min <= r <= max && min <= b <= max && min < max && (r == min || b == min)
    requires t == (60.0 * (b - r) / (max - min) + 120.0) / 360.0
    ensures 1.0 / 6.0 <= t <= 1.0 / 2.0
    ensures PeriodicWave(t + 1.0 / 3.0 + 1.0) == Share(r, min, max - min)
    ensures PeriodicWave(t + 1.0) == Share(max, min, max - min)
    ensures PeriodicWave(t - 1.0 / 3.0 + 1.0) == Share(b, min, max - min)
  {
    hide PeriodicWave, Share;
    var u := (b - r) / (max - min);
    Shares(b, r, max, min, u);
    Sixtieth(b - r, max - min, u, 120.0, t);
    Falling(t + 1.0 / 3.0 + 1.0, 1, u);
    AtTop(t + 1.0, 1, u);
    Rising(t - 1.0 / 3.0 + 1.0, 1, u);
  }

  lemma BluePlaces(r: real, g: real, max: real, min: real, t: real)
    requires min <= r <= max && min <= g <= max && min < max && (r == min || g == min)
    requires t == (60.0 * (r - g) / (max - min) + 240.0) / 360.0
    ensures 1.0 / 2.0 <= t <= 5.0 / 6.0
    ensures PeriodicWave(t + 1.0 / 3.0 + 1.0) == Share(r, min, max - min)
    ensures PeriodicWave(t + 1.0) == Share(g, min, max - min)
    ensures PeriodicWave(t - 1.0 / 3.0 + 1.0) == Share(max, min, max - min)
  {
    hide PeriodicWave, Share;
    var u := (r - g) / (max - min);
    Shares(r, g, max, min, u);
    Sixtieth(r - g, max - min, u, 240.0, t);
    Rising(t + 1.0 / 3.0 + 1.0, 2, u);
    Falling(t + 1.0, 1, u);
    AtTop(t - 1.0 / 3.0 + 1.0, 1, u);
  }

  lemma Sixtieth(x: real, d: real, u: real, base: real, t: real)
    requires d > 0.0 && u == x / d && t == (60.0 * x / d + base) / 360.0
    ensures t == u / 6.0 + base / 360.0
  {
  }

  function Highest(c: Rgb): real {
    Max(c.r, Max(c.g, c.b))
  }

  function Lowest(c: Rgb): real {
    Min(c.r, Min(c.g, c.b))
  }

  lemma NegatedQuotient(a: real, b: real, d: real)
    requires 0.0 < d
    ensures (a - b) / d == -((b - a) / d)
  {
  }

  /** With the hue unrounded, the wave at the three places shows the three channels' shares. */
  lemma HueShowsChannels(c: Rgb)
    requires Lowest(c) < Highest(c)
    ensures 0.0 <= HueOf(c) <= 420.0
    ensures (var t, min, span := HueOf(c) / 360.0, Lowest(c), Highest(c) - Lowest(c);
             && PeriodicWave(t + 1.0 / 3.0 + 1.0) == Share(c.r, min, span)
             && PeriodicWave(t + 1.0) == Share(c.g, min, span)
             && PeriodicWave(t - 1.0 / 3.0 + 1.0) == Share(c.b, min, span))
  {
    hide PeriodicWave, Share;
    var max, min, t := Highest(c), Lowest(c), HueOf(c) / 360.0;
    if c.r == max {
      RedPlaces(max, c.g, c.b, min, t);
    } else if c.g == max {
      GreenPlaces(c.r, max, c.b, min, t);
    } else {
      BluePlaces(c.r, c.g, max, min, t);
    }
  }

  // ---------- saturation and lightness recover the two levels ----------

  function Saturation(max: real, min: real): real
    requires 0.0 <= min <= max <= 1.0
  {
    var diff, add := max - min, max + min;
    if diff == 0.0 then 0.0 else if add * 0.5 <= 0.5 then diff / add else diff / (2.0 - add)
  }

  lemma UnitQuotient(a: real, b: real)
    requires 0.0 <= a <= b && 0.0 < b
    ensures 0.0 <= a / b <= 1.0
  {
  }

  lemma LevelsRecovered(max: real, min: real)
    requires 0.0 <= min <= max <= 1.0
    ensures (var s, l := Saturation(max, min), (max + min) * 0.5;
             0.0 <= s <= 1.0 && Upper(s, l) == max && Lower(s, l) == min)
  {
    var diff, add, s, l := max - min, max + min, Saturation(max, min), (max + min) * 0.5;
    if diff == 0.0 {
    } else if l <= 0.5 {
      UnitQuotient(diff, add);
      assert s * add == diff;
      assert l * (1.0 + s) == l + s * add / 2.0;
    } else {
      UnitQuotient(diff, 2.0 - add);
      assert s * (2.0 - add) == diff;
      assert l + s - l * s == l + s * (2.0 - add) / 2.0;
    }
  }

  // ---------- rounding ----------

  /** Rounding a number near a whole one. */
  lemma RoundNear(x: real, k: int, span: int)
    requires 0 <= span && k as real - span as real / 120.0 <= x <= k as real + span as real / 120.0
    ensures k - (span + 60) / 120 <= Round(x) <= k + (span + 60) / 120
  {
  }

  /** The hue lost by rounding to whole degrees, k times round the circle left out. */
  lemma RoundedHue(h: real) returns (k: int)
    requires 0.0 <= h <= 420.0
    ensures (var r := Round(h) % 360; 0 <= r < 360 && 0 <= k <= 1 && h - 0.5 <= (r + 360 * k) as real <= h + 0.5)
  {
    var q := Round(h);
    assert q as real <= h + 0.5 < q as real + 1.0;
    k := if q < 360 then 0 else 1;
    assert q % 360 + 360 * k == q;
  }

  /** Hue, saturation and lightness lie where they should; just the greys have no saturation, and their hue is 0. */
  lemma HslOfColors(c: Bytes)
    requires IsColor(c)
    ensures (var (h, s, l) := ToHsl(c);
             && 0 <= h < 360 && 0.0 <= s <= 1.0 && 0.0 <= l <= 1.0
             && (s == 0.0 <==> c.r == c.g == c.b) && (c.r == c.g == c.b ==> h == 0))
    ensures c.r > c.g == c.b ==> ToHsl(c).0 == 0
    ensures c.g > c.b == c.r ==> ToHsl(c).0 == 120
    ensures c.b > c.r == c.g ==> ToHsl(c).0 == 240
  {
    hide ToHsl, Saturation, Upper, Lower, Round;
    var u := Unit(c);
    UnitLevels(c);
    LevelsRecovered(Highest(u), Lowest(u));
    SaturationOfGrey(Highest(u), Lowest(u));
    RoundWhole();
    PureHue(u);
  }

  lemma SaturationOfGrey(max: real, min: real)
    requires 0.0 <= min <= max <= 1.0
    ensures Saturation(max, min) == 0.0 <==> max == min
  {
  }

  lemma RoundWhole()
    ensures Round(0.0) == 0 && Round(120.0) == 120 && Round(240.0) == 240 && Round(360.0) == 360
  {
  }

  lemma PureHue(u: Rgb)
    ensures u.r == u.g == u.b ==> HueOf(u) == 0.0
    ensures u.r > u.g == u.b ==> HueOf(u) == 360.0
    ensures u.g > u.b == u.r ==> HueOf(u) == 120.0
    ensures u.b > u.r == u.g ==> HueOf(u) == 240.0
  {
    var d := Max(u.r, Max(u.g, u.b)) - Min(u.r, Min(u.g, u.b));
    if u.r > u.g == u.b {
      NoDifference(u.g - u.b, d);
    } else if u.g > u.b == u.r {
      NoDifference(u.b - u.r, d);
    } else if u.b > u.r == u.g {
      NoDifference(u.r - u.g, d);
    }
  }

  lemma NoDifference(x: real, d: real)
    requires x == 0.0 && 0.0 < d
    ensures 60.0 * x / d == 0.0
  {
    assert 60.0 * x == 0.0;
  }

  // ---------- the round trip ----------

  /** The span of a colour, in bytes. */
  function Span(c: Bytes): int {
    var max := if c.r >= c.g && c.r >= c.b then c.r else if c.g >= c.b then c.g else c.b;
    var min := if c.r <= c.g && c.r <= c.b then c.r else if c.g <= c.b then c.g else c.b;
    max - min
  }

  predicate IsColor(c: Bytes) {
    0 <= c.r <= 255 && 0 <= c.g <= 255 && 0 <= c.b <= 255
  }

  function Unit(c: Bytes): Rgb {
    Rgb(c.r as real / 255.0, c.g as real / 255.0, c.b as real / 255.0)
  }

  lemma UnitLevels(c: Bytes)
    requires IsColor(c)
    ensures 0.0 <= Lowest(Unit(c)) <= Highest(Unit(c)) <= 1.0
    ensures Highest(Unit(c)) - Lowest(Unit(c)) == Span(c) as real / 255.0
    ensures ToHsl(c) == (Round(HueOf(Unit(c))) % 360, Saturation(Highest(Unit(c)), Lowest(Unit(c))),
                         (Highest(Unit(c)) + Lowest(Unit(c))) * 0.5)
  {
  }

  /** Seen from a hue half a degree off at most, the wave at a channel's place differs by at most 1/120. */
  lemma SeenWave(place: real, hue: int, shift: real, t: real, k: int)
    requires 0 <= hue && -1.0 <= hue as real / 360.0 + shift && 0.0 <= place && 0 <= k && place == t + shift + 1.0
    requires t - 1.0 / 720.0 <= (hue + 360 * k) as real / 360.0 <= t + 1.0 / 720.0
    ensures (var w, v := PeriodicWave(place), PeriodicWave(hue as real / 360.0 + shift + 1.0);
             w - 1.0 / 120.0 <= v <= w + 1.0 / 120.0)
  {
    hide PeriodicWave;
    var seen := hue as real / 360.0 + shift + 1.0;
    TurnsLeftOut(seen, hue, shift, k);
    WavePeriod(seen, k);
    WaveIsGentle(place, seen + k as real, 1.0 / 720.0);
  }

  /** One channel: the share it has on the wave at its place, seen from such a hue, gives the channel back. */
  lemma ChannelBack(x: int, min: real, max: real, span: int, place: real, hue: int, shift: real, t: real, k: int)
    requires 0.0 <= min < max && max - min == span as real / 255.0
    requires 0 <= hue && -1.0 <= hue as real / 360.0 + shift && 0.0 <= t + shift + 1.0 && 0 <= k
    requires place == t + shift + 1.0 && PeriodicWave(place) == Share(x as real / 255.0, min, max - min)
    requires t - 1.0 / 720.0 <= (hue + 360 * k) as real / 360.0 <= t + 1.0 / 720.0
    ensures (var y := Round(Hue2Rgb(min, max, hue as real / 360.0 + shift) * 255.0);
             x - (span + 60) / 120 <= y <= x + (span + 60) / 120)
  {
    hide PeriodicWave, Hue2Rgb, Share;
    SeenWave(place, hue, shift, t, k);
    ChannelFrom(x, min, max, span, hue as real / 360.0 + shift, PeriodicWave(place));
  }

  lemma ChannelFrom(x: int, min: real, max: real, span: int, seen: real, w: real)
    requires 0.0 <= min < max && max - min == span as real / 255.0 && -1.0 <= seen
    requires w == Share(x as real / 255.0, min, max - min)
    requires w - 1.0 / 120.0 <= PeriodicWave(seen + 1.0) <= w + 1.0 / 120.0
    ensures (var y := Round(Hue2Rgb(min, max, seen) * 255.0);
             x - (span + 60) / 120 <= y <= x + (span + 60) / 120)
  {
    hide PeriodicWave, Hue2Rgb, Share;
    var v, d := PeriodicWave(seen + 1.0), max - min;
    Hue2RgbIs(min, max, seen);
    ShareTimesSpan(x as real / 255.0, min, d);
    WithinSpan(x as real, min, d, w, v, span as real);
    RoundNear((min + d * v) * 255.0, x, span);
  }

  /** A share off by at most 1/120 puts a channel off by at most a 120th of the span. */
  lemma WithinSpan(x: real, min: real, d: real, w: real, v: real, span: real)
    requires 0.0 <= d && d == span / 255.0 && w - 1.0 / 120.0 <= v <= w + 1.0 / 120.0 && min + d * w == x / 255.0
    ensures x - span / 120.0 <= (min + d * v) * 255.0 <= x + span / 120.0
  {
    var a, b := d * w, d * v;
    ScaledError(d, w, v, a, b);
    InBytes(x, min, d, a, b, span);
  }

  lemma InBytes(x: real, min: real, d: real, a: real, b: real, span: real)
    requires d == span / 255.0 && min + a == x / 255.0 && -(d / 120.0) <= b - a <= d / 120.0
    ensures x - span / 120.0 <= (min + b) * 255.0 <= x + span / 120.0
  {
  }

  lemma TurnsLeftOut(y: real, hue: int, shift: real, k: int)
    requires y == hue as real / 360.0 + shift + 1.0
    ensures y + k as real == (hue + 360 * k) as real / 360.0 + shift + 1.0
  {
  }

  lemma ShareTimesSpan(x: real, min: real, span: real)
    requires span > 0.0
    ensures min + span * Share(x, min, span) == x
  {
  }

  lemma Product(a: real, b: real)
    requires 0.0 <= a && 0.0 <= b
    ensures 0.0 <= a * b
  {
  }

  lemma ScaledError(d: real, w: real, v: real, a: real, b: real)
    requires 0.0 <= d && w - 1.0 / 120.0 <= v <= w + 1.0 / 120.0 && a == d * w && b == d * v
    ensures -(d / 120.0) <= b - a <= d / 120.0
  {
    Product(d, 1.0 / 120.0 - (v - w));
    Product(d, 1.0 / 120.0 + (v - w));
    assert d * (1.0 / 120.0 - (v - w)) == d / 120.0 - (b - a);
    assert d * (1.0 / 120.0 + (v - w)) == d / 120.0 + (b - a);
  }

  /**
   From bytes to hue, saturation and lightness and back, each channel is off by at most the span over
   120, rounded: by nothing below a span of 60, by one below 180, and never by more than two.
   */
  lemma RoundTrip(c: Bytes)
    requires IsColor(c)
    ensures (var (h, s, l) := ToHsl(c); var d := FromHsl(h, s, l); var e := (Span(c) + 60) / 120;
             && c.r - e <= d.r <= c.r + e && c.g - e <= d.g <= c.g + e && c.b - e <= d.b <= c.b + e
             && 0 <= e <= 2)
  {
    hide PeriodicWave, Hue2Rgb, Share, HueOf, Highest, Lowest, Saturation, Upper, Lower, ToHsl;
    var u := Unit(c);
    var max, min := Highest(u), Lowest(u);
    UnitLevels(c);
    LevelsRecovered(max, min);
    var hue := Round(HueOf(u)) % 360;
    if min < max {
      HueShowsChannels(u);
      var k := RoundedHue(HueOf(u));
      var t := HueOf(u) / 360.0;
      ChannelBack(c.r, min, max, Span(c), t + 1.0 / 3.0 + 1.0, hue, 1.0 / 3.0, t, k);
      ChannelBack(c.g, min, max, Span(c), t + 1.0, hue, 0.0, t, k);
      ChannelBack(c.b, min, max, Span(c), t - 1.0 / 3.0 + 1.0, hue, -1.0 / 3.0, t, k);
    } else {
      GreyLevels(c, hue, min);
    }
  }

  /** Without a span there is nothing to lose. */
  lemma GreyLevels(c: Bytes, hue: int, level: real)
    requires IsColor(c) && Span(c) == 0 && level == Lowest(Unit(c))
    ensures Round(Hue2Rgb(level, level, hue as real / 360.0 + 1.0 / 3.0) * 255.0) == c.r
    ensures Round(Hue2Rgb(level, level, hue as real / 360.0) * 255.0) == c.g
    ensures Round(Hue2Rgb(level, level, hue as real / 360.0 - 1.0 / 3.0) * 255.0) == c.b
  {
  }

  /** Greys come back exactly, whatever whole hue they are given. */
  lemma GreyBack(c: Bytes, hue: int)
    requires IsColor(c) && Span(c) == 0
    ensures FromHsl(hue, ToHsl(c).1, ToHsl(c).2) == c
  {
    hide Hue2Rgb, Round, HueOf, Highest, Lowest, Saturation, Upper, Lower, ToHsl;
    var level := Lowest(Unit(c));
    UnitLevels(c);
    LevelsRecovered(Highest(Unit(c)), level);
    GreyLevels(c, hue, level);
  }

  /** All saturations and lightnesses give bytes. */
  ghost predicate GivesBytes(hue: int) {
    forall s: real, l: real :: 0.0 <= s <= 1.0 && 0.0 <= l <= 1.0 ==> IsColor(FromHsl(hue, s, l))
  }

  lemma BytesFrom(hue: int, s: real, l: real)
    requires -240 <= hue && 0.0 <= s <= 1.0 && 0.0 <= l <= 1.0
    ensures IsColor(FromHsl(hue, s, l))
  {
    hide PeriodicWave, Hue2Rgb;
    LevelsInUnit(s, l);
    var p, q, h := Lower(s, l), Upper(s, l), hue as real / 360.0;
    ByteOut(p, q, h + 1.0 / 3.0);
    ByteOut(p, q, h);
    ByteOut(p, q, h - 1.0 / 3.0);
  }

  /** The outputs are bytes whatever the saturation and lightness iff the hue is not below -240. */
  lemma AlwaysBytes(hue: int)
    ensures GivesBytes(hue) <==> -240 <= hue
  {
    hide FromHsl;
    if -240 <= hue {
      forall s: real, l: real | 0.0 <= s <= 1.0 && 0.0 <= l <= 1.0 ensures IsColor(FromHsl(hue, s, l)) {
        BytesFrom(hue, s, l);
      }
    } else {
      NegativeChannel(hue);
      assert !IsColor(FromHsl(hue, 1.0, 0.5));
    }
  }

  /** A place before the circle, in degrees, at full saturation. */
  lemma BelowZero(m: int, hue: real)
    requires 0 < m && m % 360 != 0 && hue + 1.0 == -(m as real / 360.0)
    ensures Round(Hue2Rgb(0.0, 1.0, hue) * 255.0) < 0
  {
    var f := (m % 360) as real / 360.0;
    assert m == 360 * (m / 360) + m % 360;
    assert m as real == 360.0 * (m / 360) as real + (m % 360) as real;
    FractionOf(m as real / 360.0, m / 360, f);
    assert 1.0 / 360.0 <= f;
  }

  lemma FullLevels()
    ensures Upper(1.0, 0.5) == 1.0 && Lower(1.0, 0.5) == 0.0
  {
  }

  lemma NegativeBlueAt(hue: int)
    requires hue < -240 && (-hue - 240) % 360 != 0
    ensures FromHsl(hue, 1.0, 0.5).b < 0
  {
    hide Hue2Rgb, Round, Upper, Lower;
    FullLevels();
    BelowZero(-hue - 240, hue as real / 360.0 - 1.0 / 3.0);
  }

  lemma NegativeGreenAt(hue: int)
    requires hue < -360 && (-hue - 360) % 360 != 0
    ensures FromHsl(hue, 1.0, 0.5).g < 0
  {
    hide Hue2Rgb, Round, Upper, Lower;
    FullLevels();
    BelowZero(-hue - 360, hue as real / 360.0);
  }

  lemma NegativeChannel(hue: int)
    requires hue < -240
    ensures !IsColor(FromHsl(hue, 1.0, 0.5))
  {
    hide FromHsl;
    if (-hue - 240) % 360 != 0 {
      NegativeBlueAt(hue);
    } else {
      DivUnique(-hue - 360, 360, (-hue - 240) / 360 - 1, 240);
      NegativeGreenAt(hue);
    }
  }

  /** `clamp` on whole degrees: one turn is added before the remainder is taken. */
  function ClampDegrees(value: int): int {
    if 0 <= value + 360 then (value + 360) % 360 else -((-(value + 360)) % 360)
  }

  /** Clamping leaves out whole turns, and gives degrees of one turn, of the sign of the value plus a turn. */
  lemma ClampLeavesTurnsOut(value: int)
    ensures (value - ClampDegrees(value)) % 360 == 0 && -360 < ClampDegrees(value) < 360
    ensures -360 <= value ==> 0 <= ClampDegrees(value)
    ensures value < -360 ==> ClampDegrees(value) <= 0
  {
    if 0 <= value + 360 {
      DivUnique(value - (value + 360) % 360, 360, (value + 360) / 360 - 1, 0);
    } else {
      var m := -(value + 360);
      DivUnique(value + m % 360, 360, -(m / 360) - 1, 0);
    }
  }

  /** One turn is enough down to -360; below it, hues more than 240 short of a turn give channels that are no bytes. */
  lemma ClampedGivesBytes(value: int)
    ensures GivesBytes(ClampDegrees(value)) <==> -360 <= value || (-value) % 360 <= 240
  {
    hide GivesBytes;
    AlwaysBytes(ClampDegrees(value));
    DivUnique(-(value + 360), 360, (-value) / 360 - 1, (-value) % 360);
  }

  /** The hue -700 is clamped to -340, and a pure colour of that hue comes out with a negative blue. */
  lemma NegativeBlue()
    ensures ClampDegrees(-700) == -340 && FromHsl(-340, 1.0, 0.5) == Bytes(255, 85, -425)
  {
    FractionOf(100.0 / 360.0, 0, 100.0 / 360.0);
    FractionOf(140.0 / 360.0, 0, 140.0 / 360.0);
    FractionOf(20.0 / 360.0, 0, 20.0 / 360.0);
  }

  /** A part of a length. */
  lemma PartOf(a: real, b: real) returns (p: real)
    requires 0.0 <= a && 0.0 <= b <= 1.0
    ensures p == a * b && 0.0 <= p <= a
  {
    p := a * b;
    assert a - p == a * (1.0 - b);
  }

  /** The upper level lies above the lightness by a part of the room there is. */
  lemma UpperPart(s: real, l: real) returns (part: real)
    requires 0.0 <= s <= 1.0 && 0.0 <= l <= 1.0
    ensures Upper(s, l) == l + part && 0.0 <= part <= (if l <= 0.5 then l else 1.0 - l)
  {
    if l <= 0.5 {
      part := PartOf(l, s);
    } else {
      part := PartOf(1.0 - l, s);
    }
  }

  lemma LevelsInUnit(s: real, l: real)
    requires 0.0 <= s <= 1.0 && 0.0 <= l <= 1.0
    ensures 0.0 <= Lower(s, l) <= Upper(s, l) <= 1.0
  {
    hide Upper;
    var part := UpperPart(s, l);
  }

  lemma BetweenLevels(p: real, q: real, hue: real)
    requires p <= q && -1.0 <= hue
    ensures p <= Hue2Rgb(p, q, hue) <= q
  {
    hide PeriodicWave, Hue2Rgb;
    Hue2RgbIs(p, q, hue);
    var x := PartOf(q - p, PeriodicWave(hue + 1.0));
    assert Hue2Rgb(p, q, hue) == p + x;
  }

  lemma ByteOut(p: real, q: real, hue: real)
    requires 0.0 <= p <= q <= 1.0 && -1.0 <= hue
    ensures 0 <= Round(Hue2Rgb(p, q, hue) * 255.0) <= 255
  {
    hide Hue2Rgb;
    BetweenLevels(p, q, hue);
  }

  /** The bound is met: this colour loses two. */
  lemma TwoIsLost()
    ensures ToHsl(Bytes(255, 2, 0)) == (0, 1.0, 0.5)
    ensures FromHsl(0, 1.0, 0.5) == Bytes(255, 0, 0)
  {
  }
}