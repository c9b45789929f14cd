/**
  The exact arithmetic of the wheel (src/components/Wheel.jsx): how many
  slices there are, their angles, the rotation that brings the selected
  slice under the top marker, the slice spans the SVG wedges are drawn
  from, and the colour of each slice. Angles are degrees measured clockwise
  from the top marker unless said otherwise; the trigonometry that turns
  them into SVG coordinates is not modelled.
 */
module WheelGeometry {
  import opened Arith

  /** Full extra turns added to every spin. */
  const BaseTurns: nat := 8

  /** `items.length || 1` */
  function SliceCount(itemCount: nat): (n: nat)
    ensures n >= 1
    ensures itemCount > 0 ==> n == itemCount
  {
    if itemCount == 0 then 1 else itemCount
  }

  /** `360 / n`: the slices together make up exactly one turn. */
  function SliceAngle(n: nat): (a: real)
    requires n >= 1
    ensures a > 0.0
    ensures a * (n as real) == 360.0
  {
    360.0 / (n as real)
  }

  /** `i * angle + angle / 2`: strictly inside slice `i`. */
  function SliceCenter(i: nat, n: nat): (c: real)
    requires n >= 1
    ensures (i as real) * SliceAngle(n) < c < ((i + 1) as real) * SliceAngle(n)
  {
    var a := SliceAngle(n);
    (i as real) * a + a / 2.0
  }

  /**
    `baseTurns * 360 + (360 - sliceCenterDeg)`: added to the centre of the
    selected slice it gives nine whole turns, so that centre ends on the
    marker; for an index on the wheel it lies strictly between eight and
    nine turns.
   */
  function TargetDeg(i: nat, n: nat): (t: real)
    requires n >= 1
    ensures t + SliceCenter(i, n) == ((BaseTurns + 1) * 360) as real
    ensures i < n ==> (BaseTurns * 360) as real < t < ((BaseTurns + 1) * 360) as real
  {
    CenterBelowTurn(i, n);
    (BaseTurns * 360) as real + (360.0 - SliceCenter(i, n))
  }

  /** For a slice on the wheel the centre lies strictly inside one turn. */
  lemma CenterBelowTurn(i: nat, n: nat)
    requires n >= 1
    ensures i < n ==> 0.0 < SliceCenter(i, n) < 360.0
  {
    var a := SliceAngle(n);
    if i < n {
      MulMono((i + 1) as real, n as real, a);
    }
  }

  /** `x` reduced to one turn, [0, 360). */
  function Normalize(x: real): (r: real)
    ensures 0.0 <= r < 360.0
    ensures ((x - r) / 360.0).Floor as real == (x - r) / 360.0
  {
    var k := (x / 360.0).Floor;
    x - 360.0 * (k as real)
  }

  /**
    The slice whose span holds the disc angle sitting under the top marker
    once the disc is turned clockwise by `rotation` degrees.
   */
  function SliceUnderMarker(rotation: real, n: nat): (j: nat)
    requires n >= 1
    ensures j < n
    ensures (j as real) * SliceAngle(n) <= Normalize(-rotation) < ((j + 1) as real) * SliceAngle(n)
  {
    var a := SliceAngle(n);
    var phi := Normalize(-rotation);
    FloorQuotient(phi, a, n as real);
    (phi / a).Floor
  }

  /**
    The rotation computed for slice `i` stops the wheel with slice `i`
    under the marker, and with no other slice there.
   */
  lemma TargetLandsOnSelected(i: nat, n: nat)
    requires n >= 1 && i < n
    ensures SliceUnderMarker(TargetDeg(i, n), n) == i
    ensures Normalize(-TargetDeg(i, n)) == SliceCenter(i, n)
  {
    var c := SliceCenter(i, n);
    var t := TargetDeg(i, n);
    CenterBelowTurn(i, n);
    assert -t == c - 3240.0;
    assert (-t / 360.0).Floor == -9 by {
      QuotientBounds(c, 360.0, 1.0);
      assert -t / 360.0 == c / 360.0 - 9.0;
    }
    assert Normalize(-t) == c;
    var j := SliceUnderMarker(t, n);
    var a := SliceAngle(n);
    if j < i {
      MulMono((j + 1) as real, i as real, a);
    } else if j > i {
      MulMono((i + 1) as real, j as real, a);
    }
  }

  /**
    A second spin that starts where the first one stopped travels less than
    one turn: the target replaces the rotation instead of adding to it.
   */
  lemma RespinWithoutResetMovesLessThanATurn(i: nat, k: nat, n: nat)
    requires n >= 1 && i < n && k < n
    ensures -360.0 < TargetDeg(k, n) - TargetDeg(i, n) < 360.0
  {
  }

  // ---------------------------------------------------------------------------
  // Slice spans for the SVG wedges
  // ---------------------------------------------------------------------------

  /** The wedge of slice `index`, in SVG degrees (0 at three o'clock, hence the -90). */
  datatype Slice = Slice(index: nat, startDeg: real, endDeg: real, largeArc: nat)

  /** `angle > 180 ? 1 : 0` */
  function LargeArc(n: nat): (flag: nat)
    requires n >= 1
    ensures flag == 1 <==> n == 1
    ensures flag <= 1
  {
    AngleAtMostHalfTurn(n);
    if SliceAngle(n) > 180.0 then 1 else 0
  }

  lemma AngleAtMostHalfTurn(n: nat)
    requires n >= 1
    ensures n >= 2 ==> SliceAngle(n) <= 180.0
  {
    if n >= 2 {
      MulMono(2.0, n as real, SliceAngle(n));
    }
  }

  /** The wedge of slice `i`: from `i * angle - 90` to `(i + 1) * angle - 90`. */
  function SliceAt(i: nat, n: nat): (s: Slice)
    requires n >= 1
  {
    var a := SliceAngle(n);
    Slice(i, (i as real) * a - 90.0, ((i + 1) as real) * a - 90.0, LargeArc(n))
  }

  /**
    The wedges tile the circle: the first starts at the top marker (-90),
    each ends where the next starts, the last ends back at the top (270),
    each is one slice angle wide, and only a lone slice needs the large arc.
   */
  lemma SlicesTileCircle(n: nat)
    requires n >= 1
    ensures SliceAt(0, n).startDeg == -90.0
    ensures forall k :: 0 <= k < n - 1 ==> SliceAt(k, n).endDeg == SliceAt(k + 1, n).startDeg
    ensures SliceAt(n - 1, n).endDeg == 270.0
    ensures forall k :: 0 <= k < n ==> SliceAt(k, n).endDeg - SliceAt(k, n).startDeg == SliceAngle(n)
    ensures forall k :: 0 <= k < n ==> (SliceAt(k, n).largeArc == 1 <==> n == 1)
  {
    assert ((n - 1 + 1) as real) * SliceAngle(n) == 360.0;
  }

  /** The `for` loop that builds one wedge per slice, in index order. */
  method BuildSlices(itemCount: nat) returns (slices: seq<Slice>)
    ensures |slices| == SliceCount(itemCount)
    ensures forall k :: 0 <= k < |slices| ==> slices[k] == SliceAt(k, |slices|)
  {
    var n := SliceCount(itemCount);
    var angle := SliceAngle(n);
    slices := [];
    var i := 0;
    while i < n
      invariant 0 <= i <= n
      invariant |slices| == i
      invariant forall k :: 0 <= k < i ==> slices[k] == SliceAt(k, n)
    {
      var startAng := (i as real) * angle - 90.0;
      var endAng := ((i + 1) as real) * angle - 90.0;
      var largeArc := if angle > 180.0 then 1 else 0;
      slices := slices + [Slice(i, startAng, endAng, largeArc)];
      i := i + 1;
    }
  }

  // ---------------------------------------------------------------------------
  // Colours
  // ---------------------------------------------------------------------------

  /** The `colorScheme` prop; the application passes one of these two. */
  datatype Scheme = Terms | Students

  datatype Hsl = Hsl(hue: nat, saturation: nat, lightness: nat)

  /** The fill of a wedge: the neutral grey `#ccc` or a palette colour. */
  datatype Fill = Neutral | Colour(hsl: Hsl)

  /** `baseA`: blue for terms, pink for students; a hue on the colour wheel. */
  function BaseHue(scheme: Scheme): (h: nat)
    ensures h < 360
    ensures scheme == Terms ==> 180 <= h < 240
    ensures scheme == Students ==> 300 <= h < 360
  {
    if scheme == Terms then 210 else 330
  }

  /**
    `altA`: a neighbouring shade of the same colour family, distinct from
    the base hue and at most 30 degrees below it.
   */
  function AltHue(scheme: Scheme): (h: nat)
    ensures h < BaseHue(scheme) <= h + 30
  {
    if scheme == Terms then 190 else 300
  }

  /** The palette: one colour per slice, the hue chosen by the parity of the index. */
  function Palette(n: nat, scheme: Scheme): (p: seq<Hsl>)
    ensures |p| == n
    ensures forall i :: 0 <= i < n ==> p[i].saturation == 85 && p[i].lightness == 55
  {
    seq(n, i => Hsl(if i % 2 == 0 then BaseHue(scheme) else AltHue(scheme), 85, 55))
  }

  /**
    Neighbouring slices differ in colour, slices two apart share it, and
    even slices carry the base hue; so with an odd count above one the last
    slice and the first, which touch at the marker, share a colour.
   */
  lemma PaletteAlternates(n: nat, scheme: Scheme)
    ensures forall i :: 0 <= i < n ==>
              Palette(n, scheme)[i].hue == (if i % 2 == 0 then BaseHue(scheme) else AltHue(scheme))
    ensures forall i :: 0 <= i < n - 1 ==> Palette(n, scheme)[i] != Palette(n, scheme)[i + 1]
    ensures forall i :: 0 <= i < n - 2 ==> Palette(n, scheme)[i] == Palette(n, scheme)[i + 2]
    ensures n >= 2 ==> (Palette(n, scheme)[n - 1] == Palette(n, scheme)[0] <==> n % 2 == 1)
  {
  }

  /** `disabledSet.has(i) ? '#ccc' : palette[i % palette.length]` */
  function SliceFill(i: nat, disabled: set<nat>, palette: seq<Hsl>): (f: Fill)
    requires |palette| > 0
    ensures i in disabled <==> f == Neutral
    ensures i !in disabled && i < |palette| ==> f == Colour(palette[i])
  {
    if i in disabled then Neutral else Colour(palette[i % |palette|])
  }
}
