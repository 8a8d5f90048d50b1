/** The size-bounding step of `preprocess_image` (app.py:34-56). An image
    wider or taller than 1024 pixels is scaled by min(1024/w, 1024/h) and
    each side truncated to an integer; the contrast step that follows
    (CLAHE on the L channel) keeps the dimensions. Arithmetic is over exact
    rationals; `int(...)` of a non-negative value is `.Floor`. */
module Preprocess {

  import opened Options

  /** The dimensions of a decoded image. */
  datatype Shape = Shape(width: nat, height: nat)

  /** The resize bound of app.py:42-43. */
  const MaxSide: nat := 1024

  predicate Decoded(s: Shape)
  {
    s.width >= 1 && s.height >= 1
  }

  predicate Oversized(s: Shape)
  {
    s.width > MaxSide || s.height > MaxSide
  }

  function MaxOf(a: nat, b: nat): nat
  {
    if a >= b then a else b
  }

  /** Reference definition of the target size: an oversized image is
      scaled so that its longer side becomes exactly MaxSide, any other
      image keeps its size. */
  function ExactFit(s: Shape): (r: (real, real))
    requires Decoded(s)
  {
    if !Oversized(s) then (s.width as real, s.height as real)
    else
      var m := MaxOf(s.width, s.height) as real;
      (s.width as real * MaxSide as real / m, s.height as real * MaxSide as real / m)
  }

  /** The integer shape obtained by truncating the exact target. */
  function FittedShape(s: Shape): (r: Shape)
    requires Decoded(s)
  {
    var (w, h) := ExactFit(s);
    assert w >= 0.0 && h >= 0.0;
    Shape(w.Floor, h.Floor)
  }

  /** `preprocess_image`: `None` when the file did not decode, otherwise
      the shape of the normalised image. */
  method PreprocessImage(img: Option<Shape>) returns (r: Option<Shape>)
    requires img.Some? ==> Decoded(img.value)
    ensures r.None? <==> img.None?
    ensures r.Some? ==> r.value == FittedShape(img.value)
  {
    if img.None? {
      return None;
    }
    var height, width := img.value.height, img.value.width;
    var shape := img.value;
    if width > 1024 || height > 1024 {
      var sw := 1024.0 / width as real;
      var sh := 1024.0 / height as real;
      var scale := if sw <= sh then sw else sh;
      ScaleIsLongerSide(width, height, scale);
      var newWidth := (width as real * scale).Floor;
      var newHeight := (height as real * scale).Floor;
      shape := Shape(newWidth, newHeight);
    }
    // Contrast enhancement (CLAHE on the luminance channel) keeps the shape.
    return Some(shape);
  }

  /** min(1024/w, 1024/h) is 1024 over the longer side, so multiplying by it
      is the same as dividing by the longer side. */
  lemma ScaleIsLongerSide(width: nat, height: nat, scale: real)
    requires width >= 1 && height >= 1
    requires scale == (if 1024.0 / width as real <= 1024.0 / height as real
                       then 1024.0 / width as real else 1024.0 / height as real)
    ensures scale == 1024.0 / MaxOf(width, height) as real
    ensures width as real * scale == width as real * 1024.0 / MaxOf(width, height) as real
    ensures height as real * scale == height as real * 1024.0 / MaxOf(width, height) as real
  {
    var w, h := width as real, height as real;
    if width >= height {
      assert 1024.0 / w <= 1024.0 / h by { DivMonotone(1024.0, h, w); }
    } else {
      assert 1024.0 / h < 1024.0 / w by { DivStrictMonotone(1024.0, w, h); }
    }
  }

  lemma DivMonotone(n: real, a: real, b: real)
    requires n > 0.0 && 0.0 < a <= b
    ensures n / b <= n / a
  {
    assert n / b * b == n == n / a * a;
  }

  lemma DivStrictMonotone(n: real, a: real, b: real)
    requires n > 0.0 && 0.0 < a < b
    ensures n / b < n / a
  {
    assert n / b * b == n == n / a * a;
  }

  /** Exact fit: the longer side of an oversized image becomes exactly
      MaxSide, neither side exceeds it, and the aspect ratio is kept. */
  lemma {:induction false} ExactFitBounds(s: Shape)
    requires Decoded(s)
    ensures ExactFit(s).0 <= MaxSide as real && ExactFit(s).1 <= MaxSide as real
    ensures Oversized(s) ==> ExactFit(s).0 == MaxSide as real || ExactFit(s).1 == MaxSide as real
    ensures ExactFit(s).0 * s.height as real == ExactFit(s).1 * s.width as real
  {
    if Oversized(s) {
      var w, h, n := s.width as real, s.height as real, MaxSide as real;
      var m := MaxOf(s.width, s.height) as real;
      assert ExactFit(s) == (w * n / m, h * n / m);
      FractionAtMost(w, m, n);
      FractionAtMost(h, m, n);
      CrossRatio(w, h, n, m);
      if s.width >= s.height {
        Cancel(w, n);
      } else {
        Cancel(h, n);
      }
    }
  }

  /** Scaling both sides by the same factor keeps their ratio. */
  lemma CrossRatio(w: real, h: real, n: real, m: real)
    requires m > 0.0
    ensures w * n / m * h == h * n / m * w
  {
    assert w * n / m * h == (w * h * n) / m;
    assert h * n / m * w == (w * h * n) / m;
  }

  lemma Cancel(x: real, n: real)
    requires x > 0.0
    ensures x * n / x == n
  {
  }

  /** x * n / m stays within n when x <= m. */
  lemma FractionAtMost(x: real, m: real, n: real)
    requires 0.0 <= x <= m && m > 0.0 && n >= 0.0
    ensures x * n / m <= n
  {
    assert x * n / m * m == x * n;
    assert x * n <= m * n;
  }

  /** Resizing happens exactly for oversized images: the shape changes if
      and only if a side exceeds MaxSide. */
  lemma {:induction false} FitChangesIffOversized(s: Shape)
    requires Decoded(s)
    ensures FittedShape(s) == s <==> !Oversized(s)
  {
    ExactFitBounds(s);
    var f := FittedShape(s);
    if Oversized(s) {
      assert f.width <= MaxSide && f.height <= MaxSide;
    }
  }

  /** After fitting, both integer sides are within MaxSide, the longer one is
      exactly MaxSide when the image was oversized, and each side is the exact
      target truncated, so less than one pixel short of it. */
  lemma {:induction false} FittedShapeBounds(s: Shape)
    requires Decoded(s)
    ensures FittedShape(s).width <= MaxSide && FittedShape(s).height <= MaxSide
    ensures Oversized(s) ==> MaxOf(FittedShape(s).width, FittedShape(s).height) == MaxSide
    ensures FittedShape(s).width as real <= ExactFit(s).0 < FittedShape(s).width as real + 1.0
    ensures FittedShape(s).height as real <= ExactFit(s).1 < FittedShape(s).height as real + 1.0
  {
    ExactFitBounds(s);
  }

  /** A 2000 x 1000 image is normalised to 1024 x 512. */
  lemma FitLandscapeExample()
    ensures FittedShape(Shape(2000, 1000)) == Shape(1024, 512)
  {
    assert 1000.0 * 1024.0 / 2000.0 == 512.0;
  }

  /** A 1024 x 1024 image is at the bound and is left alone. */
  lemma FitAtBoundExample()
    ensures FittedShape(Shape(1024, 1024)) == Shape(1024, 1024)
  {
  }

  /** Truncation can take the shorter side of a very elongated image to
      zero: 3000 x 1 is asked to become 1024 x 0. */
  lemma FitCanCollapseShortSide()
    ensures FittedShape(Shape(3000, 1)) == Shape(1024, 0)
  {
    assert 1.0 * 1024.0 / 3000.0 < 1.0;
  }
}
