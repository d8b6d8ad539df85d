/**
 * The camera (camera.h): it derives the viewport from its settings, shoots
 * randomly jittered rays through every pixel, follows each ray through the
 * scene for a bounded number of bounces and writes the averaged,
 * gamma-corrected colour of every pixel into a byte buffer, three bytes per
 * pixel, row by row.
 *
 * The scene is given by two functions: `world` answers the hit query of a ray
 * over an interval with a hit record of some type H, and `scatter` answers
 * the material's scatter query for a ray and a hit record with an attenuation
 * and a scattered ray, or nothing when the material absorbs the ray. Square
 * root and tangent are oracles; the random generator is `Sampling.Rng`.
 */
module Cameras {
  import opened Numbers
  import opened Vectors
  import opened Rays
  import opened Intervals
  import opened Hits
  import opened Sampling
  import opened Colors
  import Spheres

  // ------------------------------------------------------------ image height

  /** `image_height = int(image_width / aspect_ratio)`, raised to 1 when it is
      smaller. */
  function ImageHeight(width: int, aspect: real): (h: int)
    requires aspect != 0.0
    ensures h >= 1
    ensures Trunc(width as real / aspect) >= 1 ==> h == Trunc(width as real / aspect)
    ensures Trunc(width as real / aspect) < 1 ==> h == 1
  {
    var h := Trunc(width as real / aspect);
    if h < 1 then 1 else h
  }

  /** When the width holds at least one row's worth of the aspect ratio, the
      height is the number of whole rows: h * aspect <= width < (h + 1) * aspect. */
  lemma ImageHeightFits(width: int, aspect: real)
    requires 0.0 < aspect <= width as real
    ensures var h := ImageHeight(width, aspect);
      h as real * aspect <= width as real < (h + 1) as real * aspect
  {
    var q := width as real / aspect;
    assert q * aspect == width as real;
    MulMonotone(aspect, width as real, 1.0 / aspect);
    assert 1.0 <= q;
    var h := Trunc(q);
    assert h as real <= q < h as real + 1.0;
    MulMonotone(h as real, q, aspect);
    MulStrict(q, h as real + 1.0, aspect);
  }

  // ------------------------------------------------------------ viewport

  /** `2 * tan(degrees_to_radians(vfov) / 2) * focus_dist`. */
  function ViewportHeight(vfov: real, focusDist: real, tan: real -> real): real {
    2.0 * tan(vfov * Spheres.DegreesToRadiansFactor / 2.0) * focusDist
  }

  /** `focus_dist * tan(degrees_to_radians(defocus_angle / 2))`. */
  function DefocusRadius(defocusAngle: real, focusDist: real, tan: real -> real): real {
    focusDist * tan(defocusAngle / 2.0 * Spheres.DegreesToRadiansFactor)
  }

  /** `center - focus_dist * w - viewport_u / 2 - viewport_v / 2`. */
  function UpperLeft(center: Vec3, focusDist: real, w: Vec3, viewportU: Vec3, viewportV: Vec3): Vec3 {
    Sub(Sub(Sub(center, Scale(focusDist, w)), Div(viewportU, 2.0)), Div(viewportV, 2.0))
  }

  /** The pixel grid spans the viewport exactly: pixel (0, 0) sits half a step
      inside the upper-left corner, and half a step beyond the last pixel
      (width - 1, height - 1) lies the lower-right corner. */
  lemma PixelGridSpansViewport(upperLeft: Vec3, viewportU: Vec3, viewportV: Vec3, width: int, height: int)
    requires width >= 1 && height >= 1
    ensures var du := Div(viewportU, width as real);
      var dv := Div(viewportV, height as real);
      var pixel00 := Add(upperLeft, Scale(0.5, Add(du, dv)));
      && Sub(pixel00, Scale(0.5, Add(du, dv))) == upperLeft
      && Add(Add(Add(pixel00, Scale((width - 1) as real, du)), Scale((height - 1) as real, dv)), Scale(0.5, Add(du, dv)))
         == Add(Add(upperLeft, viewportU), viewportV)
  {
    var W, H := width as real, height as real;
    var du, dv := Div(viewportU, W), Div(viewportV, H);
    var half := Scale(0.5, Add(du, dv));
    var pixel00 := Add(upperLeft, half);
    var far := Add(Add(Add(pixel00, Scale(W - 1.0, du)), Scale(H - 1.0, dv)), half);
    assert pixel00.x - half.x == upperLeft.x && far.x == upperLeft.x + viewportU.x + viewportV.x by {
      SpanComponent(upperLeft.x, viewportU.x, viewportV.x, W, H);
    }
    assert pixel00.y - half.y == upperLeft.y && far.y == upperLeft.y + viewportU.y + viewportV.y by {
      SpanComponent(upperLeft.y, viewportU.y, viewportV.y, W, H);
    }
    assert pixel00.z - half.z == upperLeft.z && far.z == upperLeft.z + viewportU.z + viewportV.z by {
      SpanComponent(upperLeft.z, viewportU.z, viewportV.z, W, H);
    }
  }

  /** One coordinate of `PixelGridSpansViewport`. */
  lemma SpanComponent(l: real, a: real, b: real, W: real, H: real)
    requires 1.0 <= W && 1.0 <= H
    ensures var du := (1.0 / W) * a;
      var dv := (1.0 / H) * b;
      var p := l + 0.5 * (du + dv);
      && p - 0.5 * (du + dv) == l
      && p + (W - 1.0) * du + (H - 1.0) * dv + 0.5 * (du + dv) == l + a + b
  {
    var kw, kh := 1.0 / W, 1.0 / H;
    assert W * kw == 1.0 && H * kh == 1.0;
    assert W * (kw * a) == (W * kw) * a;
    assert H * (kh * b) == (H * kh) * b;
  }

  // ------------------------------------------------------------ colours

  /** The background sky of a ray direction. */
  function Background(dir: Vec3, sqrt: real -> real): Vec3 {
    var unitDirection := UnitVector(dir, sqrt);
    var a := 0.5 * (unitDirection.y + 1.0);
    Add(Scale(1.0 - a, Vec3(1.0, 1.0, 1.0)), Scale(a, Vec3(0.5, 0.7, 1.0)))
  }

  /** `ray_color`: the colour a ray gathers within `depth` bounces. */
  function RayColor<H>(r: Ray, depth: int, world: (Ray, Interval) -> Option<H>,
                       scatter: (Ray, H) -> Option<(Vec3, Ray)>, sqrt: real -> real): Vec3
    decreases depth
  {
    if depth <= 0 then Zero
    else match world(r, Forward)
      case Some(rec) =>
        (match scatter(r, rec)
         case Some((attenuation, scattered)) => Mul(attenuation, RayColor(scattered, depth - 1, world, scatter, sqrt))
         case None => Zero)
      case None => Background(r.dir, sqrt)
  }

  /** Every channel lies in [0, 1]. */
  predicate InUnitCube(c: Vec3) {
    0.0 <= c.x <= 1.0 && 0.0 <= c.y <= 1.0 && 0.0 <= c.z <= 1.0
  }

  /** Every material attenuates: no channel of an attenuation leaves [0, 1]. */
  ghost predicate Attenuates<H(!new)>(scatter: (Ray, H) -> Option<(Vec3, Ray)>) {
    forall r: Ray, rec: H :: scatter(r, rec).Some? ==> InUnitCube(scatter(r, rec).value.0)
  }

  /** The y component of a normalised vector lies in [-1, 1], the zero vector
      included. */
  lemma UnitY(v: Vec3, sqrt: real -> real)
    requires IsSqrt(sqrt)
    ensures -1.0 <= UnitVector(v, sqrt).y <= 1.0
  {
    if LengthSquared(v) > 0.0 {
      UnitVectorIsUnit(v, sqrt);
    } else {
      assert sqrt(LengthSquared(v)) * sqrt(LengthSquared(v)) == 0.0;
      SquareNonNegative(v.x);
      SquareNonNegative(v.z);
      AbsBelowRoot(v.y, 0.0);
    }
  }

  /** The sky lies between white (1, 1, 1) and blue (0.5, 0.7, 1.0), channel
      by channel. */
  lemma BackgroundBetween(dir: Vec3, sqrt: real -> real)
    requires IsSqrt(sqrt)
    ensures var c := Background(dir, sqrt); 0.5 <= c.x <= 1.0 && 0.7 <= c.y <= 1.0 && c.z == 1.0
  {
    UnitY(dir, sqrt);
  }

  /** Looking straight up gives the blue end, straight down the white end. */
  lemma BackgroundEnds(sqrt: real -> real, s: real)
    requires IsSqrt(sqrt) && 0.0 < s
    ensures Background(Vec3(0.0, s, 0.0), sqrt) == Vec3(0.5, 0.7, 1.0)
    ensures Background(Vec3(0.0, -s, 0.0), sqrt) == Vec3(1.0, 1.0, 1.0)
  {
    var len := sqrt(s * s);
    MulPositive(s, s);
    assert len * len == s * s && 0.0 <= len;
    SquareRootUnique(len, s);
    assert LengthSquared(Vec3(0.0, s, 0.0)) == s * s;
    assert LengthSquared(Vec3(0.0, -s, 0.0)) == s * s;
    assert (1.0 / s) * s == 1.0;
    assert UnitVector(Vec3(0.0, s, 0.0), sqrt).y == 1.0;
    assert UnitVector(Vec3(0.0, -s, 0.0), sqrt).y == -1.0;
  }

  /** A non-negative number whose square is s * s is s. */
  lemma SquareRootUnique(len: real, s: real)
    requires 0.0 <= len && 0.0 < s && len * len == s * s
    ensures len == s
  {
    if len < s {
      SquareLess(len, s);
    } else if s < len {
      SquareLess(s, len);
    }
  }

  /** The product of two colours of the unit cube stays in it. */
  lemma MulInUnitCube(a: Vec3, b: Vec3)
    requires InUnitCube(a) && InUnitCube(b)
    ensures InUnitCube(Mul(a, b))
  {
    UnitProduct(a.x, b.x);
    UnitProduct(a.y, b.y);
    UnitProduct(a.z, b.z);
  }

  lemma UnitProduct(a: real, b: real)
    requires 0.0 <= a <= 1.0 && 0.0 <= b <= 1.0
    ensures 0.0 <= a * b <= 1.0
  {
    MulMonotone(a, 1.0, b);
    assert a * b <= 1.0 * b;
    MulNonNegative(a, b);
  }

  /** With attenuating materials every ray colour lies in [0, 1]. */
  lemma {:induction false} RayColorInUnitCube<H(!new)>(r: Ray, depth: int, world: (Ray, Interval) -> Option<H>,
                                                 scatter: (Ray, H) -> Option<(Vec3, Ray)>, sqrt: real -> real)
    requires IsSqrt(sqrt) && Attenuates(scatter)
    ensures InUnitCube(RayColor(r, depth, world, scatter, sqrt))
    decreases depth
  {
    if depth > 0 {
      match world(r, Forward) {
        case Some(rec) =>
          match scatter(r, rec) {
            case Some((attenuation, scattered)) =>
              RayColorInUnitCube(scattered, depth - 1, world, scatter, sqrt);
              MulInUnitCube(attenuation, RayColor(scattered, depth - 1, world, scatter, sqrt));
            case None =>
          }
        case None =>
          BackgroundBetween(r.dir, sqrt);
      }
    }
  }

  /** The bound on bounces: in a closed scene, where every ray hits and every
      material scatters, no ray escapes within `depth` bounces, so every ray
      colour is black. */
  lemma {:induction false} ClosedSceneIsBlack<H(!new)>(r: Ray, depth: int, world: (Ray, Interval) -> Option<H>,
                                                 scatter: (Ray, H) -> Option<(Vec3, Ray)>, sqrt: real -> real)
    requires forall q: Ray :: world(q, Forward).Some?
    requires forall q: Ray, rec: H :: scatter(q, rec).Some?
    ensures RayColor(r, depth, world, scatter, sqrt) == Zero
    decreases depth
  {
    if depth > 0 {
      var rec := world(r, Forward).value;
      var scattered := scatter(r, rec).value.1;
      ClosedSceneIsBlack(scattered, depth - 1, world, scatter, sqrt);
    }
  }

  /** An absorbing material makes the hit black, at any positive depth. */
  lemma AbsorbIsBlack<H>(r: Ray, depth: int, world: (Ray, Interval) -> Option<H>,
                         scatter: (Ray, H) -> Option<(Vec3, Ray)>, sqrt: real -> real)
    requires world(r, Forward).Some? && scatter(r, world(r, Forward).value).None?
    ensures RayColor(r, depth, world, scatter, sqrt) == Zero
  {
  }

  /** The sum of the colours of a pixel's sample rays, accumulated in order. */
  function SumColors<H>(rays: seq<Ray>, depth: int, world: (Ray, Interval) -> Option<H>,
                        scatter: (Ray, H) -> Option<(Vec3, Ray)>, sqrt: real -> real): Vec3
    decreases |rays|
  {
    if rays == [] then Zero
    else Add(SumColors(rays[..|rays| - 1], depth, world, scatter, sqrt), RayColor(rays[|rays| - 1], depth, world, scatter, sqrt))
  }

  /** `linear_to_gamma`: the square root of positive components, 0 otherwise. */
  function LinearToGamma(x: real, sqrt: real -> real): (g: real)
    ensures x <= 0.0 ==> g == 0.0
  {
    if x > 0.0 then sqrt(x) else 0.0
  }

  /** Gamma 2 inverts squaring: the corrected value is non-negative and its
      square is the linear value. */
  lemma GammaSquares(x: real, sqrt: real -> real)
    requires IsSqrt(sqrt) && 0.0 <= x
    ensures 0.0 <= LinearToGamma(x, sqrt) && LinearToGamma(x, sqrt) * LinearToGamma(x, sqrt) == x
  {
  }

  /** Gamma correction preserves the order of components. */
  lemma GammaMonotone(x: real, y: real, sqrt: real -> real)
    requires IsSqrt(sqrt) && x <= y
    ensures LinearToGamma(x, sqrt) <= LinearToGamma(y, sqrt)
  {
    if 0.0 < x {
      var a, b := sqrt(x), sqrt(y);
      assert 0.0 <= a && a * a == x && 0.0 <= b && b * b == y;
      AbsBelowRoot(a, b);
    }
  }

  /** The gamma-corrected colour of a pixel from the sum of its samples. */
  function GammaColor(total: Vec3, scale: real, sqrt: real -> real): Vec3 {
    Vec3(LinearToGamma(scale * total.x, sqrt), LinearToGamma(scale * total.y, sqrt), LinearToGamma(scale * total.z, sqrt))
  }

  /** With n samples and scale 1/n, an all-black sum gives byte 0 and a sum
      of n white samples gives byte 255. */
  lemma AveragedBytes(n: int, scale: real, sqrt: real -> real)
    requires IsSqrt(sqrt) && n >= 1 && scale * n as real == 1.0
    ensures ToByte(LinearToGamma(scale * 0.0, sqrt)) == 0
    ensures ToByte(LinearToGamma(scale * n as real, sqrt)) == 255
  {
    var g := sqrt(1.0);
    assert 0.0 <= g && g * g == 1.0;
    SquareRootUnique(g, 1.0);
  }

  // ------------------------------------------------------------ pixel buffer

  /** Pixel (i, j) of a w-wide image owns the bytes (j * w + i) * 3 through
      (j * w + i) * 3 + 2, all inside the w * h * 3 buffer. */
  lemma PixelInBuffer(i: int, j: int, w: int, h: int)
    requires 0 <= i < w && 0 <= j < h
    ensures 0 <= (j * w + i) * 3 && (j * w + i) * 3 + 2 < w * h * 3
  {
    MulNonNegativeInt(j, w);
    assert j * w + i < (j + 1) * w;
    MulMonotoneInt(j + 1, h, w);
  }

  /** Distinct pixels own disjoint bytes: a byte determines its pixel and its
      channel. */
  lemma PixelsDisjoint(i: int, j: int, c: int, i': int, j': int, c': int, w: int)
    requires 0 <= i < w && 0 <= j && 0 <= c < 3
    requires 0 <= i' < w && 0 <= j' && 0 <= c' < 3
    requires (j * w + i) * 3 + c == (j' * w + i') * 3 + c'
    ensures i == i' && j == j' && c == c'
  {
    var p, p' := j * w + i, j' * w + i';
    assert p == p' && c == c';
    PixelOfIndex(i, j, w);
    PixelOfIndex(i', j', w);
  }

  /** Every byte of the buffer belongs to a pixel: byte k is channel k % 3 of
      pixel (k / 3 % w, k / 3 / w). */
  lemma PixelsCover(k: int, w: int, h: int)
    requires 0 <= k < w * h * 3 && 1 <= w
    ensures var p := k / 3; var i := p % w; var j := p / w;
      0 <= i < w && 0 <= j < h && k == (j * w + i) * 3 + k % 3
  {
    var p := k / 3;
    assert p < w * h;
    var i, j := p % w, p / w;
    assert p == j * w + i;
    if h <= j {
      MulMonotoneInt(h, j, w);
    }
  }

  /** Row j and column i of pixel j * w + i. */
  lemma PixelOfIndex(i: int, j: int, w: int)
    requires 0 <= i < w && 0 <= j
    ensures (j * w + i) / w == j && (j * w + i) % w == i
  {
    var p := j * w + i;
    var q, m := p / w, p % w;
    assert p == q * w + m && 0 <= m < w;
    if q < j {
      MulMonotoneInt(q + 1, j, w);
    } else if j < q {
      MulMonotoneInt(j + 1, q, w);
    }
  }

  lemma MulNonNegativeInt(a: int, b: int)
    requires 0 <= a && 0 <= b
    ensures 0 <= a * b
  {
  }

  lemma MulMonotoneInt(a: int, b: int, c: int)
    requires a <= b && 0 <= c
    ensures a * c <= b * c
  {
    assert b * c - a * c == (b - a) * c;
    MulNonNegativeInt(b - a, c);
  }

  // ------------------------------------------------------------ sampling

  /** A point of the square [-0.5, 0.5) x [-0.5, 0.5) in the plane z = 0. */
  predicate InSquare(offset: Vec3) {
    -0.5 <= offset.x < 0.5 && -0.5 <= offset.y < 0.5 && offset.z == 0.0
  }

  /** A point of the open unit disk in the plane z = 0. */
  predicate InUnitDisk(p: Vec3) {
    p.z == 0.0 && LengthSquared(p) < 1.0
  }

  /** The square offset built from the two draws at position n. */
  function SquareOffset(sample: nat -> real, n: nat): Vec3 {
    Vec3(sample(n) - 0.5, sample(n + 1) - 0.5, 0.0)
  }

  /** The buffer with the three bytes of a gamma-corrected colour written at
      index n. */
  function Written(bytes: seq<byte>, n: nat, gamma: Vec3): (after: seq<byte>)
    requires n + 3 <= |bytes|
    ensures |after| == |bytes|
  {
    var r: byte, g: byte, b: byte := ToByte(gamma.x), ToByte(gamma.y), ToByte(gamma.z);
    bytes[n := r][n + 1 := g][n + 2 := b]
  }

  /** The public settings of a camera. */
  datatype Settings = Settings(
    aspectRatio: real, imageWidth: int, samplesPerPixel: int, maxDepth: int,
    vfov: real, lookfrom: Vec3, lookat: Vec3, vup: Vec3,
    defocusAngle: real, focusDist: real)

  /** The fields `initialize` derives from the settings. */
  datatype Frame = Frame(
    imageHeight: int, pixelSamplesScale: real, center: Vec3, pixel00: Vec3,
    pixelDeltaU: Vec3, pixelDeltaV: Vec3, u: Vec3, v: Vec3, w: Vec3,
    defocusDiskU: Vec3, defocusDiskV: Vec3)

  /** The computation of `initialize`, step by step: image height, sample
      scale, camera centre, viewport size, camera basis, pixel steps, first
      pixel and defocus disk. */
  function Derive(s: Settings, tan: real -> real, sqrt: real -> real): (f: Frame)
    requires s.aspectRatio != 0.0 && s.imageWidth >= 1 && s.samplesPerPixel != 0
    ensures f.imageHeight == ImageHeight(s.imageWidth, s.aspectRatio)
    ensures f.pixelSamplesScale * s.samplesPerPixel as real == 1.0
    ensures f.center == s.lookfrom
  {
    var imageHeight := ImageHeight(s.imageWidth, s.aspectRatio);
    var pixelSamplesScale := 1.0 / s.samplesPerPixel as real;
    var center := s.lookfrom;
    var viewportHeight := ViewportHeight(s.vfov, s.focusDist, tan);
    var viewportWidth := viewportHeight * (s.imageWidth as real / imageHeight as real);
    var w := UnitVector(Sub(s.lookfrom, s.lookat), sqrt);
    var u := UnitVector(Cross(s.vup, w), sqrt);
    var v := Cross(w, u);
    var viewportU := Scale(viewportWidth, u);
    var viewportV := Scale(viewportHeight, Neg(v));
    var pixelDeltaU := Div(viewportU, s.imageWidth as real);
    var pixelDeltaV := Div(viewportV, imageHeight as real);
    var pixel00 := Add(UpperLeft(center, s.focusDist, w, viewportU, viewportV), Scale(0.5, Add(pixelDeltaU, pixelDeltaV)));
    var defocusRadius := DefocusRadius(s.defocusAngle, s.focusDist, tan);
    Frame(imageHeight, pixelSamplesScale, center, pixel00, pixelDeltaU, pixelDeltaV, u, v, w,
          ScaleRight(u, defocusRadius), ScaleRight(v, defocusRadius))
  }

  class Camera {
    var aspectRatio: real
    var imageWidth: int
    var samplesPerPixel: int
    var maxDepth: int
    var vfov: real
    var lookfrom: Vec3
    var lookat: Vec3
    var vup: Vec3
    var defocusAngle: real
    var focusDist: real

    /** The private fields `initialize` sets, held together. */
    var frame: Frame

    function CurrentSettings(): Settings
      reads this
    {
      Settings(aspectRatio, imageWidth, samplesPerPixel, maxDepth, vfov, lookfrom, lookat, vup, defocusAngle, focusDist)
    }

    /** The camera with the default settings. */
    constructor ()
      ensures CurrentSettings() == Settings(1.0, 100, 10, 10, 90.0, Vec3(0.0, 0.0, 0.0), Vec3(0.0, 0.0, -1.0),
                                            Vec3(0.0, 1.0, 0.0), 0.0, 10.0)
    {
      aspectRatio, imageWidth, samplesPerPixel, maxDepth := 1.0, 100, 10, 10;
      vfov, lookfrom, lookat, vup := 90.0, Vec3(0.0, 0.0, 0.0), Vec3(0.0, 0.0, -1.0), Vec3(0.0, 1.0, 0.0);
      defocusAngle, focusDist := 0.0, 10.0;
    }

    /** The settings `initialize` needs to derive the rest. */
    predicate Renderable()
      reads this
    {
      aspectRatio != 0.0 && imageWidth >= 1 && samplesPerPixel != 0
    }

    /** The derived fields are those `initialize` computes from the settings. */
    ghost predicate Initialized(tan: real -> real, sqrt: real -> real)
      reads this
    {
      Renderable() && frame == Derive(CurrentSettings(), tan, sqrt)
    }

    /** `initialize`: derives the image height, the sample scale, the camera
        frame, the pixel grid and the defocus disk from the settings. */
    method Initialize(tan: real -> real, sqrt: real -> real)
      requires Renderable()
      modifies this
      ensures Initialized(tan, sqrt)
      ensures CurrentSettings() == old(CurrentSettings())
    {
      frame := Derive(CurrentSettings(), tan, sqrt);
    }

    /** The point of pixel (i, j) displaced by an offset in pixel steps. */
    function PixelSample(i: int, j: int, offset: Vec3): Vec3
      reads this
    {
      Add(Add(frame.pixel00, Scale(i as real + offset.x, frame.pixelDeltaU)), Scale(j as real + offset.y, frame.pixelDeltaV))
    }

    /** The point of the defocus disk for a point p of the unit disk. */
    function DiskPoint(p: Vec3): Vec3
      reads this
    {
      Add(Add(frame.center, Scale(p.x, frame.defocusDiskU)), Scale(p.y, frame.defocusDiskV))
    }

    /** A ray `get_ray` can return for pixel (i, j): it starts at the camera
        centre (no defocus) or on the defocus disk, and points at a sample of
        the pixel's square. */
    ghost predicate PixelRay(r: Ray, i: int, j: int)
      reads this
    {
      && (exists offset: Vec3 :: InSquare(offset) && r.dir == Sub(PixelSample(i, j, offset), r.orig))
      && (defocusAngle <= 0.0 ==> r.orig == frame.center)
      && (defocusAngle > 0.0 ==> exists p: Vec3 :: InUnitDisk(p) && r.orig == DiskPoint(p))
    }

    /** `sample_square`: a random offset in the unit square around the pixel
        centre, from the next two draws. */
    method SampleSquare(rng: Rng) returns (offset: Vec3)
      requires rng.Valid()
      modifies rng
      ensures InSquare(offset)
      ensures offset == SquareOffset(rng.sample, old(rng.pos)) && rng.pos == old(rng.pos) + 2
    {
      var dx := rng.RandomDouble();
      var dy := rng.RandomDouble();
      offset := Vec3(dx - 0.5, dy - 0.5, 0.0);
    }

    /** `defocus_disk_sample`: a random point of the defocus disk. */
    method DefocusDiskSample(rng: Rng) returns (q: Vec3)
      requires rng.Valid() && DiskEventually(rng.sample, rng.pos)
      modifies rng
      ensures exists p: Vec3 :: InUnitDisk(p) && q == DiskPoint(p)
      ensures old(rng.pos) < rng.pos
    {
      var p, _ := RandomInUnitDisk(rng);
      q := Add(Add(frame.center, Scale(p.x, frame.defocusDiskU)), Scale(p.y, frame.defocusDiskV));
      assert InUnitDisk(p) && q == DiskPoint(p);
    }

    /** The ray origin: the camera centre, or a point of the defocus disk. */
    method RayOrigin(rng: Rng) returns (origin: Vec3)
      requires rng.Valid() && (defocusAngle > 0.0 ==> DiskFair(rng.sample))
      modifies rng
      ensures defocusAngle <= 0.0 ==> origin == frame.center && rng.pos == old(rng.pos)
      ensures defocusAngle > 0.0 ==> (exists p: Vec3 :: InUnitDisk(p) && origin == DiskPoint(p)) && old(rng.pos) < rng.pos
    {
      if defocusAngle <= 0.0 {
        origin := frame.center;
      } else {
        origin := DefocusDiskSample(rng);
      }
    }

    /** `get_ray(i, j)`: a ray through a random point of pixel (i, j), at a
        random time in [0, 1). */
    method GetRay(i: int, j: int, rng: Rng) returns (r: Ray)
      requires rng.Valid() && (defocusAngle > 0.0 ==> DiskFair(rng.sample))
      modifies rng
      ensures PixelRay(r, i, j)
      ensures r.dir == Sub(PixelSample(i, j, SquareOffset(rng.sample, old(rng.pos))), r.orig)
      ensures old(rng.pos) + 3 <= rng.pos && r.time == rng.sample(rng.pos - 1) && 0.0 <= r.time < 1.0
      ensures defocusAngle <= 0.0 ==> rng.pos == old(rng.pos) + 3
    {
      var offset := SampleSquare(rng);
      var pixelSample := PixelSample(i, j, offset);
      var rayOrigin := RayOrigin(rng);
      var rayDirection := Sub(pixelSample, rayOrigin);
      var rayTime := rng.RandomDouble();
      r := Ray(rayOrigin, rayDirection, rayTime);
    }

    /** `get_ray(i, j, time)`: the same ray with the time given. */
    method GetRayAt(i: int, j: int, time: real, rng: Rng) returns (r: Ray)
      requires rng.Valid() && (defocusAngle > 0.0 ==> DiskFair(rng.sample))
      modifies rng
      ensures PixelRay(r, i, j) && r.time == time
      ensures r.dir == Sub(PixelSample(i, j, SquareOffset(rng.sample, old(rng.pos))), r.orig)
      ensures old(rng.pos) + 2 <= rng.pos
      ensures defocusAngle <= 0.0 ==> rng.pos == old(rng.pos) + 2
    {
      var offset := SampleSquare(rng);
      var pixelSample := PixelSample(i, j, offset);
      var rayOrigin := RayOrigin(rng);
      var rayDirection := Sub(pixelSample, rayOrigin);
      r := Ray(rayOrigin, rayDirection, time);
    }

    /** The number of samples the sample loop takes. */
    function SampleCount(): nat
      reads this
    {
      if samplesPerPixel < 0 then 0 else samplesPerPixel
    }

    /** The sample loop of `render` for pixel (i, j): the sum of the colours
        of `samples_per_pixel` rays through the pixel. */
    method SamplePixel<H>(i: int, j: int, world: (Ray, Interval) -> Option<H>,
                          scatter: (Ray, H) -> Option<(Vec3, Ray)>, sqrt: real -> real, rng: Rng)
      returns (pixelColor: Vec3, ghost rays: seq<Ray>)
      requires rng.Valid() && (defocusAngle > 0.0 ==> DiskFair(rng.sample))
      modifies rng
      ensures rng.Valid()
      ensures |rays| == SampleCount()
      ensures forall s :: 0 <= s < |rays| ==> PixelRay(rays[s], i, j)
      ensures pixelColor == SumColors(rays, maxDepth, world, scatter, sqrt)
    {
      pixelColor := Zero;
      rays := [];
      var sample := 0;
      while sample < samplesPerPixel
        invariant 0 <= sample && |rays| == sample
        invariant samplesPerPixel >= 0 ==> sample <= samplesPerPixel
        invariant samplesPerPixel < 0 ==> sample == 0
        invariant rng.Valid()
        invariant forall s :: 0 <= s < |rays| ==> PixelRay(rays[s], i, j)
        invariant pixelColor == SumColors(rays, maxDepth, world, scatter, sqrt)
      {
        pixelColor, rays := AddSample(i, j, world, scatter, sqrt, rng, pixelColor, rays);
        sample := sample + 1;
      }
    }

    /** One pass of the sample loop: one more ray through pixel (i, j), its
        colour added to the sum. */
    method AddSample<H>(i: int, j: int, world: (Ray, Interval) -> Option<H>,
                        scatter: (Ray, H) -> Option<(Vec3, Ray)>, sqrt: real -> real, rng: Rng,
                        sum: Vec3, ghost rays0: seq<Ray>)
      returns (pixelColor: Vec3, ghost rays: seq<Ray>)
      requires rng.Valid() && (defocusAngle > 0.0 ==> DiskFair(rng.sample))
      requires forall s :: 0 <= s < |rays0| ==> PixelRay(rays0[s], i, j)
      requires sum == SumColors(rays0, maxDepth, world, scatter, sqrt)
      modifies rng
      ensures rng.Valid() && |rays| == |rays0| + 1
      ensures forall s :: 0 <= s < |rays| ==> PixelRay(rays[s], i, j)
      ensures pixelColor == SumColors(rays, maxDepth, world, scatter, sqrt)
    {
      var r := GetRay(i, j, rng);
      pixelColor := Add(sum, RayColor(r, maxDepth, world, scatter, sqrt));
      rays := rays0 + [r];
      assert rays[..|rays0|] == rays0;
    }

    /** Byte k of the image for the summed colours of its pixels: channel
        k % 3 of pixel k / 3, averaged, gamma corrected and quantised. */
    function ByteAt(colors: seq<Vec3>, k: int, sqrt: real -> real): byte
      reads this
      requires 0 <= k < 3 * |colors|
    {
      ToByte(GammaColor(colors[k / 3], frame.pixelSamplesScale, sqrt).At(k % 3))
    }

    /** The buffer after the pixels of `colors` were written into `original`:
        their 3 * |colors| bytes come first, the rest is untouched. */
    ghost predicate Drawn(bytes: seq<byte>, original: seq<byte>, colors: seq<Vec3>, sqrt: real -> real)
      reads this
    {
      && |bytes| == |original| && 3 * |colors| <= |bytes|
      && (forall k :: 0 <= k < 3 * |colors| ==> bytes[k] == ByteAt(colors, k, sqrt))
      && (forall k :: 3 * |colors| <= k < |bytes| ==> bytes[k] == original[k])
    }

    /** Pixel p's colour is the sum of the colours of its `SampleCount()`
        sample rays, all rays of the pixel in column p % image_width and row
        p / image_width. */
    ghost predicate Sampled<H>(colors: seq<Vec3>, rays: seq<seq<Ray>>, world: (Ray, Interval) -> Option<H>,
                               scatter: (Ray, H) -> Option<(Vec3, Ray)>, sqrt: real -> real)
      reads this
      requires imageWidth >= 1
    {
      && |rays| == |colors|
      && forall p :: 0 <= p < |rays| ==>
        && |rays[p]| == SampleCount()
        && colors[p] == SumColors(rays[p], maxDepth, world, scatter, sqrt)
        && forall s :: 0 <= s < |rays[p]| ==> PixelRay(rays[p][s], p % imageWidth, p / imageWidth)
    }

    /** `render`: initialises the camera, then writes every pixel's three bytes
        row by row. The ghost results hold each pixel's summed colour and its
        sample rays. */
    method Render<H>(world: (Ray, Interval) -> Option<H>, scatter: (Ray, H) -> Option<(Vec3, Ray)>,
                     tan: real -> real, sqrt: real -> real, rng: Rng, pixels: array<byte>)
      returns (ghost colors: seq<Vec3>, ghost rays: seq<seq<Ray>>)
      requires Renderable()
      requires rng.Valid() && (defocusAngle > 0.0 ==> DiskFair(rng.sample))
      requires imageWidth * ImageHeight(imageWidth, aspectRatio) * 3 <= pixels.Length
      modifies this, rng, pixels
      ensures Initialized(tan, sqrt) && CurrentSettings() == old(CurrentSettings())
      ensures |colors| == frame.imageHeight * imageWidth
      ensures Drawn(pixels[..], old(pixels[..]), colors, sqrt)
      ensures Sampled(colors, rays, world, scatter, sqrt)
    {
      Initialize(tan, sqrt);
      ghost var original := pixels[..];
      colors, rays := [], [];
      var j := 0;
      while j < frame.imageHeight
        modifies rng, pixels
        invariant 0 <= j <= frame.imageHeight
        invariant |colors| == j * imageWidth
        invariant rng.Valid()
        invariant Drawn(pixels[..], original, colors, sqrt)
        invariant Sampled(colors, rays, world, scatter, sqrt)
      {
        colors, rays := RenderRow(j, world, scatter, sqrt, rng, pixels, original, colors, rays);
        j := j + 1;
      }
    }

    /** One row of `render`: pixels (0, j) through (image_width - 1, j). */
    method RenderRow<H>(j: int, world: (Ray, Interval) -> Option<H>, scatter: (Ray, H) -> Option<(Vec3, Ray)>,
                        sqrt: real -> real, rng: Rng, pixels: array<byte>, ghost original: seq<byte>,
                        ghost colors0: seq<Vec3>, ghost rays0: seq<seq<Ray>>)
      returns (ghost colors: seq<Vec3>, ghost rays: seq<seq<Ray>>)
      requires imageWidth >= 1 && 0 <= j < frame.imageHeight
      requires imageWidth * frame.imageHeight * 3 <= pixels.Length
      requires |colors0| == j * imageWidth
      requires rng.Valid() && (defocusAngle > 0.0 ==> DiskFair(rng.sample))
      requires Drawn(pixels[..], original, colors0, sqrt) && Sampled(colors0, rays0, world, scatter, sqrt)
      modifies rng, pixels
      ensures rng.Valid()
      ensures |colors| == (j + 1) * imageWidth
      ensures Drawn(pixels[..], original, colors, sqrt) && Sampled(colors, rays, world, scatter, sqrt)
    {
      colors, rays := colors0, rays0;
      var i := 0;
      while i < imageWidth
        invariant 0 <= i <= imageWidth
        invariant |colors| == j * imageWidth + i
        invariant rng.Valid()
        invariant Drawn(pixels[..], original, colors, sqrt)
        invariant Sampled(colors, rays, world, scatter, sqrt)
      {
        colors, rays := RenderPixel(i, j, world, scatter, sqrt, rng, pixels, original, colors, rays);
        i := i + 1;
      }
      assert (j + 1) * imageWidth == j * imageWidth + imageWidth;
    }

    /** The body of `render`'s pixel loop for pixel (i, j): sum the samples,
        then write the gamma-corrected bytes at (j * image_width + i) * 3. */
    method RenderPixel<H>(i: int, j: int, world: (Ray, Interval) -> Option<H>, scatter: (Ray, H) -> Option<(Vec3, Ray)>,
                          sqrt: real -> real, rng: Rng, pixels: array<byte>, ghost original: seq<byte>,
                          ghost colors0: seq<Vec3>, ghost rays0: seq<seq<Ray>>)
      returns (ghost colors: seq<Vec3>, ghost rays: seq<seq<Ray>>)
      requires 0 <= i < imageWidth && 0 <= j < frame.imageHeight
      requires imageWidth * frame.imageHeight * 3 <= pixels.Length
      requires |colors0| == j * imageWidth + i
      requires rng.Valid() && (defocusAngle > 0.0 ==> DiskFair(rng.sample))
      requires Drawn(pixels[..], original, colors0, sqrt) && Sampled(colors0, rays0, world, scatter, sqrt)
      modifies rng, pixels
      ensures rng.Valid()
      ensures |colors| == |colors0| + 1
      ensures Drawn(pixels[..], original, colors, sqrt) && Sampled(colors, rays, world, scatter, sqrt)
    {
      ghost var bytes := pixels[..];
      var pixelColor, pixelRays := SamplePixel(i, j, world, scatter, sqrt, rng);
      SampledAppend(colors0, rays0, pixelColor, pixelRays, i, j, world, scatter, sqrt);
      colors, rays := colors0 + [pixelColor], rays0 + [pixelRays];

      var index := (j * imageWidth + i) * 3;
      PixelInBuffer(i, j, imageWidth, frame.imageHeight);
      var gamma := GammaColor(pixelColor, frame.pixelSamplesScale, sqrt);
      WriteBytes(pixels, index, gamma);
      WrittenPixel(bytes, pixels[..], original, colors0, pixelColor, gamma, sqrt);
    }

    /** The three byte stores of `render` at `index`. */
    static method WriteBytes(pixels: array<byte>, index: int, gamma: Vec3)
      requires 0 <= index && index + 3 <= pixels.Length
      modifies pixels
      ensures pixels[..] == Written(old(pixels[..]), index, gamma)
    {
      pixels[index] := ToByte(gamma.x);
      pixels[index + 1] := ToByte(gamma.y);
      pixels[index + 2] := ToByte(gamma.z);
    }

    /** Writing the three bytes of the next pixel extends the drawn part of
        the buffer by that pixel. */
    lemma WrittenPixel(bytes: seq<byte>, after: seq<byte>, original: seq<byte>, colors: seq<Vec3>, pixelColor: Vec3,
                       gamma: Vec3, sqrt: real -> real)
      requires Drawn(bytes, original, colors, sqrt) && 3 * |colors| + 3 <= |bytes|
      requires gamma == GammaColor(pixelColor, frame.pixelSamplesScale, sqrt)
      requires after == Written(bytes, 3 * |colors|, gamma)
      ensures Drawn(after, original, colors + [pixelColor], sqrt)
    {
      var n := 3 * |colors|;
      var all := colors + [pixelColor];
      forall k | 0 <= k < 3 * |all|
        ensures after[k] == ByteAt(all, k, sqrt)
      {
        if k < n {
          assert all[k / 3] == colors[k / 3];
        } else {
          assert k / 3 == |colors| && all[k / 3] == pixelColor;
        }
      }
    }

    /** Appending pixel (i, j) as pixel j * w + i keeps every pixel's colour the
        sum over its own sample rays. */
    lemma SampledAppend<H>(colors: seq<Vec3>, rays: seq<seq<Ray>>, pixelColor: Vec3, pixelRays: seq<Ray>, i: int, j: int,
                           world: (Ray, Interval) -> Option<H>, scatter: (Ray, H) -> Option<(Vec3, Ray)>, sqrt: real -> real)
      requires 0 <= i < imageWidth && 0 <= j && |colors| == j * imageWidth + i
      requires Sampled(colors, rays, world, scatter, sqrt)
      requires |pixelRays| == SampleCount() && pixelColor == SumColors(pixelRays, maxDepth, world, scatter, sqrt)
      requires forall s :: 0 <= s < |pixelRays| ==> PixelRay(pixelRays[s], i, j)
      ensures Sampled(colors + [pixelColor], rays + [pixelRays], world, scatter, sqrt)
    {
      PixelOfIndex(i, j, imageWidth);
      var all, allRays := colors + [pixelColor], rays + [pixelRays];
      forall p | 0 <= p < |allRays|
        ensures |allRays[p]| == SampleCount()
        ensures all[p] == SumColors(allRays[p], maxDepth, world, scatter, sqrt)
        ensures forall s :: 0 <= s < |allRays[p]| ==> PixelRay(allRays[p][s], p % imageWidth, p / imageWidth)
      {
        if p < |rays| {
          assert all[p] == colors[p] && allRays[p] == rays[p];
        } else {
          assert p == j * imageWidth + i && all[p] == pixelColor && allRays[p] == pixelRays;
        }
      }
    }
  }
}
