/** The vertex and fragment shaders of the animated sun (src/shaders.rs). The
    noise sampler, `sin`, `cos`, `powf` and `normalize` are taken from a
    `Library` value and not interpreted. */
module Shaders {
  import opened Glm
  import opened Casts
  import opened Colors
  import opened Vertices
  import opened Fragments
  import opened Frame

  // ---------------------------------------------------------------------------
  // Vertex shader

  /** How far the vertex is pushed along its normal: noise times 0.08 times a
      pulse between 0.3 and 1. */
  function Displacement(v: Vertex, u: Uniforms, lib: Library): real {
    var noiseValue := lib.noise(v.position.x * 1.5, v.position.y * 1.5, v.position.z * 1.5 + u.time * 0.3);
    var pulse := lib.sin(u.time * 1.8) * 0.35 + 0.65;
    noiseValue * 0.08 * pulse
  }

  /** The displaced homogeneous point: position plus normal times the
      displacement, with w = 1. */
  function Displaced(v: Vertex, u: Uniforms, lib: Library): (p: Vec4)
    ensures p.w == 1.0
    ensures v.normal == Zero3 ==> p == Vec4(v.position.x, v.position.y, v.position.z, 1.0)
  {
    var d := Displacement(v, u, lib);
    Vec4(v.position.x + v.normal.x * d, v.position.y + v.normal.y * d, v.position.z + v.normal.z * d, 1.0)
  }

  /** The displacement never exceeds 8% of the noise value's magnitude, and
      has the noise value's sign. */
  lemma DisplacementBound(v: Vertex, u: Uniforms, lib: Library)
    requires TrigBounded(lib)
    ensures var n := lib.noise(v.position.x * 1.5, v.position.y * 1.5, v.position.z * 1.5 + u.time * 0.3);
      && Abs(Displacement(v, u, lib)) <= 0.08 * Abs(n)
      && (n >= 0.0 ==> Displacement(v, u, lib) >= 0.0)
      && (n <= 0.0 ==> Displacement(v, u, lib) <= 0.0)
  {
    var n := lib.noise(v.position.x * 1.5, v.position.y * 1.5, v.position.z * 1.5 + u.time * 0.3);
    var pulse := lib.sin(u.time * 1.8) * 0.35 + 0.65;
    assert 0.3 <= pulse <= 1.0 by {
      assert -1.0 <= lib.sin(u.time * 1.8) <= 1.0;
    }
    ScaledBound(n * 0.08, pulse);
  }

  /** Scaling by a factor in [0, 1] keeps the sign and does not grow the magnitude. */
  lemma ScaledBound(a: real, s: real)
    requires 0.0 <= s <= 1.0
    ensures Abs(a * s) <= Abs(a)
    ensures a >= 0.0 ==> a * s >= 0.0
    ensures a <= 0.0 ==> a * s <= 0.0
  {
    var m := Abs(a);
    NonnegativeProduct(m, s);
    NonnegativeProduct(m, 1.0 - s);
    assert m - m * s == m * (1.0 - s);
    if a >= 0.0 {
      assert a * s == m * s;
    } else {
      assert a * s == -(m * s);
    }
  }

  lemma NonnegativeProduct(x: real, y: real)
    requires 0.0 <= x && 0.0 <= y
    ensures 0.0 <= x * y
  {
  }

  /** The clip-space point: `projection * view * model * displaced`. */
  function Clip(v: Vertex, u: Uniforms, lib: Library): Vec4 {
    MulVec4(MatMul4(MatMul4(u.projection, u.view), u.model), Displaced(v, u, lib))
  }

  /** The perspective divide. */
  function Ndc(v: Vertex, u: Uniforms, lib: Library): (p: Vec4)
    requires Clip(v, u, lib).w != 0.0
    ensures p.w == 1.0
    ensures p.x * Clip(v, u, lib).w == Clip(v, u, lib).x
    ensures p.y * Clip(v, u, lib).w == Clip(v, u, lib).y
    ensures p.z * Clip(v, u, lib).w == Clip(v, u, lib).z
  {
    var t := Clip(v, u, lib);
    Vec4(t.x / t.w, t.y / t.w, t.z / t.w, 1.0)
  }

  /** `unwrap_or(Mat3::identity())` of the inverse of the transposed upper
      block of the model matrix. */
  function NormalMatrix(u: Uniforms, lib: Library): (m: Mat3)
    ensures lib.tryInverse(Transpose3(Upper3(u.model))).None? ==> m == Identity3
    ensures lib.tryInverse(Transpose3(Upper3(u.model))).Some? ==> m == lib.tryInverse(Transpose3(Upper3(u.model))).value
  {
    match lib.tryInverse(Transpose3(Upper3(u.model)))
    case Some(inv) => inv
    case None => Identity3
  }

  /** `vertex_shader`. */
  function VertexShader(v: Vertex, u: Uniforms, lib: Library): (r: Vertex)
    requires Clip(v, u, lib).w != 0.0
    ensures r.position == v.position && r.normal == v.normal
    ensures r.texCoords == v.texCoords && r.color == v.color
    ensures var s := MulVec4(u.viewport, Ndc(v, u, lib));
      r.transformedPosition == Vec3(s.x, s.y, s.z)
    ensures r.transformedNormal == MulVec3(NormalMatrix(u, lib), v.normal)
  {
    var screen := MulVec4(u.viewport, Ndc(v, u, lib));
    Vertex(v.position, v.normal, v.texCoords, v.color, Vec3(screen.x, screen.y, screen.z), MulVec3(NormalMatrix(u, lib), v.normal))
  }

  /** When the normal matrix has no inverse the normal is passed through. */
  lemma SingularModelKeepsNormal(v: Vertex, u: Uniforms, lib: Library)
    requires Clip(v, u, lib).w != 0.0
    requires lib.tryInverse(Transpose3(Upper3(u.model))).None?
    ensures VertexShader(v, u, lib).transformedNormal == v.normal
  {
    IdentityMulVec3(v.normal);
  }

  /** With the matrix of `create_viewport_matrix`, the screen position is the
      device position scaled onto the framebuffer, y flipped. */
  lemma ScreenPosition(v: Vertex, u: Uniforms, lib: Library, width: real, height: real)
    requires Clip(v, u, lib).w != 0.0
    requires u.viewport == ViewportMatrix(width, height)
    ensures var n, p := Ndc(v, u, lib), VertexShader(v, u, lib).transformedPosition;
      p == Vec3((n.x + 1.0) * width / 2.0, (1.0 - n.y) * height / 2.0, n.z)
  {
    var n := Ndc(v, u, lib);
    ViewportMapping(width, height, n.x, n.y, n.z);
  }

  // ---------------------------------------------------------------------------
  // Fragment shader: temperature

  /** `f32::clamp`. */
  function Clamp(x: real, lo: real, hi: real): (r: real)
    requires lo <= hi
    ensures lo <= r <= hi
    ensures lo <= x <= hi ==> r == x
    ensures x < lo ==> r == lo
    ensures hi < x ==> r == hi
  {
    if x < lo then lo else if hi < x then hi else x
  }

  function TimeFactor(u: Uniforms): real {
    u.time * 0.18
  }

  /** The three noise layers (base, detail, sun spots) mixed 35/35/30. */
  function Combined(f: Fragment, u: Uniforms, lib: Library): real {
    var pos := f.vertexPosition;
    var baseNoise := lib.noise(pos.x * 2.2, pos.y * 2.2, pos.z * 2.2 + TimeFactor(u));
    var detailNoise := lib.noise(pos.x * 5.0, pos.y * 5.0, pos.z * 5.0 + TimeFactor(u) * 1.5);
    var spots := lib.noise(pos.x * 9.0, pos.y * 9.0, pos.z * 9.0 - TimeFactor(u) * 0.7);
    baseNoise * 0.35 + detailNoise * 0.35 + spots * 0.3
  }

  function Pulse1(u: Uniforms, lib: Library): real {
    lib.sin(u.time * 2.2) * 0.5 + 0.5
  }

  function Pulse2(u: Uniforms, lib: Library): real {
    lib.cos(u.time * 3.3 + 1.0) * 0.5 + 0.5
  }

  lemma PulsesInUnitRange(u: Uniforms, lib: Library)
    requires TrigBounded(lib)
    ensures 0.0 <= Pulse1(u, lib) <= 1.0
    ensures 0.0 <= Pulse2(u, lib) <= 1.0
  {
    assert -1.0 <= lib.sin(u.time * 2.2) <= 1.0;
    assert -1.0 <= lib.cos(u.time * 3.3 + 1.0) <= 1.0;
  }

  /** The noise mapped to [0, 1] (for noise in [-1, 1]), raised to 0.38 and
      clamped. */
  function Temperature(f: Fragment, u: Uniforms, lib: Library): (t: real)
    ensures 0.0 <= t <= 1.0
  {
    var normalized := (Combined(f, u, lib) + 1.0) * 0.5;
    Clamp(lib.powf(normalized, 0.38), 0.0, 1.0)
  }

  /** The temperature dimmed by at most a quarter with the first pulse. */
  function TempPulsed(f: Fragment, u: Uniforms, lib: Library): real {
    Temperature(f, u, lib) * (0.75 + Pulse1(u, lib) * 0.25)
  }

  /** The pulsed temperature lies between three quarters of the temperature
      and the temperature itself, so in [0, 1]. */
  lemma TempPulsedRange(f: Fragment, u: Uniforms, lib: Library)
    requires TrigBounded(lib)
    ensures 0.75 * Temperature(f, u, lib) <= TempPulsed(f, u, lib) <= Temperature(f, u, lib)
    ensures 0.0 <= TempPulsed(f, u, lib) <= 1.0
  {
    PulsesInUnitRange(u, lib);
    var t := Temperature(f, u, lib);
    var s := 0.75 + Pulse1(u, lib) * 0.25;
    assert 0.75 <= s <= 1.0;
    calc {
      0.75 * t;
    <=
      s * t;
    <=
      1.0 * t;
    }
  }

  // ---------------------------------------------------------------------------
  // Fragment shader: colour ramp

  const TopColor: Color := Color(255, 255, 248)

  /** The seven bands, hottest first; each below the top runs a linear formula
      of its own parameter t, which is 0 at its lower threshold and 1 at its
      upper one. */
  datatype Band = WhiteHot | Yellow | YellowOrange | Orange | OrangeRed | Red | Spot

  /** The band of a pulsed temperature: thresholds tested from the top with `>`. */
  function BandOf(tp: real): Band {
    if tp > 0.88 then WhiteHot
    else if tp > 0.75 then Yellow
    else if tp > 0.61 then YellowOrange
    else if tp > 0.47 then Orange
    else if tp > 0.34 then OrangeRed
    else if tp > 0.22 then Red
    else Spot
  }

  /** The band's parameter t. The bottom band runs from 0, not from a threshold. */
  function BandParameter(b: Band, tp: real): real {
    match b
    case WhiteHot => 0.0
    case Yellow => (tp - 0.75) / 0.13
    case YellowOrange => (tp - 0.61) / 0.14
    case Orange => (tp - 0.47) / 0.14
    case OrangeRed => (tp - 0.34) / 0.13
    case Red => (tp - 0.22) / 0.12
    case Spot => tp / 0.22
  }

  /** The channel values of a band at parameter t before the cast to u8. The
      top band has a fixed colour; the constant 255 red channels of the
      yellow bands are written as such. */
  function Channels(b: Band, t: real): Vec3 {
    match b
    case WhiteHot => Vec3(255.0, 255.0, 248.0)
    case Yellow => Vec3(255.0, 242.0 - t * 12.0, 195.0 + t * 53.0)
    case YellowOrange => Vec3(255.0, 210.0 + t * 32.0, 90.0 + t * 105.0)
    case Orange => Vec3(238.0 + t * 17.0, 165.0 + t * 45.0, 35.0 + t * 55.0)
    case OrangeRed => Vec3(205.0 + t * 33.0, 115.0 + t * 50.0, 18.0 + t * 17.0)
    case Red => Vec3(165.0 + t * 40.0, 60.0 + t * 55.0, 8.0 + t * 10.0)
    case Spot => Vec3(80.0 + t * 85.0, 15.0 + t * 45.0, 3.0 + t * 5.0)
  }

  /** Each channel cast with `as u8`; on the literal channels of the source
      (255 and 248) the cast returns the literal. */
  function ToColor(c: Vec3): (r: Color)
    ensures c == Vec3(255.0, 255.0, 248.0) ==> r == TopColor
  {
    Color(AsU8(c.x), AsU8(c.y), AsU8(c.z))
  }

  /** The colour of the `if temp_pulsed > …` cascade. */
  function Ramp(tp: real): Color {
    var b := BandOf(tp);
    ToColor(Channels(b, BandParameter(b, tp)))
  }

  /** The band a temperature falls in is the one whose half-open interval
      (lower threshold, upper threshold] holds it. */
  lemma BandIntervals(tp: real)
    ensures BandOf(tp) == WhiteHot <==> 0.88 < tp
    ensures BandOf(tp) == Yellow <==> 0.75 < tp <= 0.88
    ensures BandOf(tp) == YellowOrange <==> 0.61 < tp <= 0.75
    ensures BandOf(tp) == Orange <==> 0.47 < tp <= 0.61
    ensures BandOf(tp) == OrangeRed <==> 0.34 < tp <= 0.47
    ensures BandOf(tp) == Red <==> 0.22 < tp <= 0.34
    ensures BandOf(tp) == Spot <==> tp <= 0.22
  {
  }

  /** Every band below the top spans t from 0 to 1 over its interval. */
  lemma BandParameterInUnitRange(tp: real)
    requires 0.0 <= tp <= 0.88
    ensures 0.0 <= BandParameter(BandOf(tp), tp) <= 1.0
  {
  }

  /** The hottest band is the fixed near-white colour. */
  lemma TopBandColor(tp: real)
    requires tp > 0.88
    ensures Ramp(tp) == TopColor
  {
  }

  /** Every temperature above 0.61 has a full red channel. */
  lemma RedSaturatedAbove(tp: real)
    requires tp > 0.61
    ensures Ramp(tp).r == 255
  {
  }

  /** A temperature exactly on a threshold takes the lower band at that band's
      t = 1 end, and that colour is also the upper band's formula at its t = 0
      end: the ramp is continuous at 0.22, 0.34, 0.47, 0.61 and 0.75. */
  lemma ContinuousAtThresholds()
    ensures BandOf(0.75) == YellowOrange && BandParameter(YellowOrange, 0.75) == 1.0
    ensures Channels(YellowOrange, 1.0) == Channels(Yellow, 0.0)
    ensures BandOf(0.61) == Orange && BandParameter(Orange, 0.61) == 1.0
    ensures Channels(Orange, 1.0) == Channels(YellowOrange, 0.0)
    ensures BandOf(0.47) == OrangeRed && BandParameter(OrangeRed, 0.47) == 1.0
    ensures Channels(OrangeRed, 1.0) == Channels(Orange, 0.0)
    ensures BandOf(0.34) == Red && BandParameter(Red, 0.34) == 1.0
    ensures Channels(Red, 1.0) == Channels(OrangeRed, 0.0)
    ensures BandOf(0.22) == Spot && BandParameter(Spot, 0.22) == 1.0
    ensures Channels(Spot, 1.0) == Channels(Red, 0.0)
  {
  }

  /** At 0.88 the ramp jumps: the yellow band ends with green 230 while the
      top band has green 255. */
  lemma JumpAtTop()
    ensures BandOf(0.88) == Yellow && BandParameter(Yellow, 0.88) == 1.0
    ensures Channels(Yellow, 1.0) == Vec3(255.0, 230.0, 248.0)
    ensures Ramp(0.88) == Color(255, 230, 248)
    ensures Channels(WhiteHot, 0.0).y - Channels(Yellow, 1.0).y == 25.0
  {
    assert AsU8(230.0) == 230;
  }

  /** The red channel before the cast, as one function of the temperature. */
  function RedLevel(tp: real): real {
    var b := BandOf(tp);
    Channels(b, BandParameter(b, tp)).x
  }

  /** Red never cools as the temperature rises. */
  lemma RedLevelMonotone(tp1: real, tp2: real)
    requires tp1 <= tp2
    ensures RedLevel(tp1) <= RedLevel(tp2)
  {
    RedLevelBounds(tp1);
    RedLevelBounds(tp2);
    if BandOf(tp1) == BandOf(tp2) {
      BandSlope(BandOf(tp1), tp1, tp2);
    }
  }

  /** The red level of each band lies between its values at the band's two ends. */
  lemma RedLevelBounds(tp: real)
    ensures BandOf(tp) == Spot ==> RedLevel(tp) <= 165.0
    ensures BandOf(tp) == Red ==> 165.0 < RedLevel(tp) <= 205.0
    ensures BandOf(tp) == OrangeRed ==> 205.0 < RedLevel(tp) <= 238.0
    ensures BandOf(tp) == Orange ==> 238.0 < RedLevel(tp) <= 255.0
    ensures BandOf(tp) in {YellowOrange, Yellow, WhiteHot} ==> RedLevel(tp) == 255.0
  {
  }

  /** Within one band the red level grows with the temperature. */
  lemma BandSlope(b: Band, tp1: real, tp2: real)
    requires tp1 <= tp2
    ensures Channels(b, BandParameter(b, tp1)).x <= Channels(b, BandParameter(b, tp2)).x
  {
  }

  /** The red channel of the ramp never decreases as the temperature rises. */
  lemma RampRedMonotone(tp1: real, tp2: real)
    requires tp1 <= tp2
    ensures Ramp(tp1).r <= Ramp(tp2).r
  {
    RedLevelMonotone(tp1, tp2);
    AsU8Monotone(RedLevel(tp1), RedLevel(tp2));
  }

  // ---------------------------------------------------------------------------
  // Fragment shader: emission

  /** The emission tier of a pulsed temperature. */
  function BaseEmission(tp: real): (e: real)
    ensures tp > 0.75 ==> e == 1.5
    ensures 0.55 < tp <= 0.75 ==> e == 1.15
    ensures 0.35 < tp <= 0.55 ==> e == 0.9
    ensures tp <= 0.35 ==> e == 0.65
  {
    if tp > 0.75 then 1.5
    else if tp > 0.55 then 1.15
    else if tp > 0.35 then 0.9
    else 0.65
  }

  /** Hotter is never dimmer. */
  lemma EmissionMonotone(tp1: real, tp2: real)
    requires tp1 <= tp2
    ensures BaseEmission(tp1) <= BaseEmission(tp2)
  {
  }

  /** The emission scaled by a second pulse into [0.92, 1] of itself. */
  function PulsatingEmission(tp: real, u: Uniforms, lib: Library): real {
    BaseEmission(tp) * (0.92 + Pulse2(u, lib) * 0.08)
  }

  lemma PulsatingEmissionRange(tp: real, u: Uniforms, lib: Library)
    requires TrigBounded(lib)
    ensures 0.92 * BaseEmission(tp) <= PulsatingEmission(tp, u, lib) <= BaseEmission(tp)
  {
    PulsesInUnitRange(u, lib);
    var s := 0.92 + Pulse2(u, lib) * 0.08;
    var e := BaseEmission(tp);
    assert 0.92 <= s <= 1.0;
    calc {
      0.92 * e;
    <=
      s * e;
    <=
      1.0 * e;
    }
  }

  /** The rim glow: a Fresnel term of the view and normal directions times
      0.3 times the first pulse. */
  function EdgeGlow(f: Fragment, u: Uniforms, lib: Library): real {
    var viewDir := lib.normalize(f.vertexPosition);
    var normal := lib.normalize(f.normal);
    var fresnel := lib.powf(1.0 - Abs(Dot3(viewDir, normal)), 3.2);
    fresnel * 0.3 * Pulse1(u, lib)
  }

  /** What `fragment_shader` hands to `Color`'s multiplication: the ramp colour
      and the factor it is multiplied by. */
  datatype Shade = Shade(color: Color, factor: real)

  /** `fragment_shader`. */
  function FragmentShader(f: Fragment, u: Uniforms, lib: Library): Shade {
    var tp := TempPulsed(f, u, lib);
    Shade(Ramp(tp), PulsatingEmission(tp, u, lib) + EdgeGlow(f, u, lib))
  }

  /** Whatever the pulse, a fragment is at least as red, and its emission at
      least 92% as bright, as a quarter-dimmed temperature gives; so a
      temperature above 0.61 / 0.75 always shades full red. */
  lemma ShadeLowerBounds(f: Fragment, u: Uniforms, lib: Library)
    requires TrigBounded(lib)
    ensures var t, s := Temperature(f, u, lib), FragmentShader(f, u, lib);
      && Ramp(0.75 * t).r <= s.color.r
      && 0.92 * BaseEmission(0.75 * t) <= s.factor - EdgeGlow(f, u, lib)
      && (0.75 * t > 0.61 ==> s.color.r == 255)
  {
    var t, tp := Temperature(f, u, lib), TempPulsed(f, u, lib);
    TempPulsedRange(f, u, lib);
    RampRedMonotone(0.75 * t, tp);
    EmissionMonotone(0.75 * t, tp);
    PulsatingEmissionRange(tp, u, lib);
    if 0.75 * t > 0.61 {
      RedSaturatedAbove(tp);
    }
  }
}
