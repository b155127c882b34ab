/** The camera of www/camera.3d.mjs: a world focus point, a zoom factor and the
    canvas size, from which a view-projection matrix is rebuilt after every change.

    gl-matrix is modelled on the only kind of matrix the camera ever builds: a
    3x3 homogeneous matrix with no rotation or shear, which maps a point `p`
    to `(sx * p.x + tx, sy * p.y + ty)`. Translation, scaling, the pixel
    projection, inversion and multiplication all stay inside that kind. */
module Camera {
  import opened Util

  /** `[sx, 0, 0, 0, sy, 0, tx, ty, 1]` in gl-matrix's column-major layout. */
  datatype Affine = Affine(sx: real, sy: real, tx: real, ty: real)

  /** `vec2.transformMat3`: the point `(p.x, p.y, 1)` times the matrix. */
  function Apply(m: Affine, p: Vec2): Vec2
  {
    Vec2(m.sx * p.x + m.tx, m.sy * p.y + m.ty)
  }

  /** `mat3.create()`: the identity matrix. */
  function Identity(): Affine
  {
    Affine(1.0, 1.0, 0.0, 0.0)
  }

  /** `mat3.multiply(out, a, b)`. */
  function Multiply(a: Affine, b: Affine): Affine
  {
    Affine(a.sx * b.sx, a.sy * b.sy, a.sx * b.tx + a.tx, a.sy * b.ty + a.ty)
  }

  /** Applying a product applies `b` first, then `a`. */
  lemma MultiplyApply(a: Affine, b: Affine, p: Vec2)
    ensures Apply(Multiply(a, b), p) == Apply(a, Apply(b, p))
  {
    var q := Apply(b, p);
    Compose(a.sx, a.tx, b.sx, b.tx, p.x);
    Compose(a.sy, a.ty, b.sy, b.ty, p.y);
    assert Apply(a, q).x == Apply(Multiply(a, b), p).x;
    assert Apply(a, q).y == Apply(Multiply(a, b), p).y;
  }

  lemma Compose(s: real, t: real, s': real, t': real, v: real)
    ensures s * (s' * v + t') + t == (s * s') * v + (s * t' + t)
  {
    calc {
      s * (s' * v + t') + t;
      s * (s' * v) + s * t' + t;
      (s * s') * v + (s * t' + t);
    }
  }

  /** `mat3.translate(out, a, v)`: `a` times a translation by `v`. */
  function Translate(a: Affine, v: Vec2): Affine
  {
    Multiply(a, Affine(1.0, 1.0, v.x, v.y))
  }

  /** `mat3.scale(out, a, v)`: `a` times a scaling by `v`. */
  function Scale(a: Affine, v: Vec2): Affine
  {
    Multiply(a, Affine(v.x, v.y, 0.0, 0.0))
  }

  /** `mat3.projection(out, width, height)`: pixels to clip space, with the
      y axis flipped so that the top-left pixel corner goes to (-1, 1). */
  function Projection(width: real, height: real): (m: Affine)
    requires width != 0.0 && height != 0.0
    ensures Apply(m, Vec2(0.0, 0.0)) == Vec2(-1.0, 1.0)
    ensures Apply(m, Vec2(width, height)) == Vec2(1.0, -1.0)
  {
    Affine(2.0 / width, -2.0 / height, -1.0, 1.0)
  }

  /** `mat3.invert` succeeds (does not return null) exactly when the determinant is non-zero. */
  predicate Invertible(m: Affine)
  {
    m.sx != 0.0 && m.sy != 0.0
  }

  /** `mat3.invert(out, m)`. */
  function Invert(m: Affine): (r: Affine)
    requires Invertible(m)
    ensures Invertible(r)
  {
    Affine(1.0 / m.sx, 1.0 / m.sy, -m.tx / m.sx, -m.ty / m.sy)
  }

  /** The inverse undoes the matrix on both sides. */
  lemma InvertApply(m: Affine, p: Vec2)
    requires Invertible(m)
    ensures Apply(Invert(m), Apply(m, p)) == p
    ensures Apply(m, Apply(Invert(m), p)) == p
  {
    Reciprocal(m.sx, p.x, m.tx);
    Reciprocal(m.sy, p.y, m.ty);
  }

  lemma Reciprocal(s: real, v: real, t: real)
    requires s != 0.0
    ensures (1.0 / s) * (s * v + t) + -t / s == v
    ensures s * ((1.0 / s) * v + -t / s) + t == v
  {
  }

  /** `getCameraMatrix`: translate to the focus, scale by 1/zoom, then
      centre the viewport; it maps a canvas pixel to the world point drawn there. */
  function CameraMatrix(x: real, y: real, zoom: real, width: real, height: real): (m: Affine)
    requires zoom != 0.0
    ensures Invertible(m)
    ensures Apply(m, Vec2(width / 2.0, height / 2.0)) == Vec2(x, y)
  {
    Translate(Scale(Translate(Identity(), Vec2(x, y)), Vec2(1.0 / zoom, 1.0 / zoom)), Vec2(-width / 2.0, -height / 2.0))
  }

  /** The camera matrix, written out. */
  lemma CameraMatrixForm(x: real, y: real, zoom: real, width: real, height: real)
    requires zoom != 0.0
    ensures CameraMatrix(x, y, zoom, width, height) == Affine(1.0 / zoom, 1.0 / zoom, x - width / 2.0 / zoom, y - height / 2.0 / zoom)
  {
    assert (1.0 / zoom) * (-width / 2.0) == -(width / 2.0 / zoom);
    assert (1.0 / zoom) * (-height / 2.0) == -(height / 2.0 / zoom);
  }

  /** The camera matrix is the affine map `p -> (x, y) + (p - (width/2, height/2)) / zoom`,
      so the centre of the canvas shows the focus point. */
  lemma CameraMatrixMaps(x: real, y: real, zoom: real, width: real, height: real, p: Vec2)
    requires zoom != 0.0
    ensures Apply(CameraMatrix(x, y, zoom, width, height), p) == Vec2(x + (p.x - width / 2.0) / zoom, y + (p.y - height / 2.0) / zoom)
    ensures Apply(CameraMatrix(x, y, zoom, width, height), Vec2(width / 2.0, height / 2.0)) == Vec2(x, y)
  {
    CameraMatrixForm(x, y, zoom, width, height);
    assert (1.0 / zoom) * p.x + (x - width / 2.0 / zoom) == x + (p.x - width / 2.0) / zoom;
    assert (1.0 / zoom) * p.y + (y - height / 2.0 / zoom) == y + (p.y - height / 2.0) / zoom;
  }

  /** `getViewProjectionMatrix`: projection times the inverse camera matrix,
      mapping world coordinates to clip space. */
  function ViewProjection(x: real, y: real, zoom: real, width: real, height: real): (m: Affine)
    requires zoom != 0.0 && width != 0.0 && height != 0.0
    ensures Invertible(m)
  {
    Multiply(Projection(width, height), Invert(CameraMatrix(x, y, zoom, width, height)))
  }

  /** The view-projection matrix, written out: the focus goes to the clip
      origin and one world unit spans `2 * zoom / width` of clip space. */
  lemma ViewProjectionForm(x: real, y: real, zoom: real, width: real, height: real)
    requires zoom != 0.0 && width != 0.0 && height != 0.0
    ensures ViewProjection(x, y, zoom, width, height)
         == Affine(2.0 * zoom / width, -2.0 * zoom / height, -2.0 * zoom * x / width, 2.0 * zoom * y / height)
  {
    InverseCameraForm(x, y, zoom, width, height);
    ProjectionAxisX(x, zoom, width);
    ProjectionAxisY(y, zoom, height);
  }

  /** The inverse camera matrix (the view matrix), written out. */
  lemma InverseCameraForm(x: real, y: real, zoom: real, width: real, height: real)
    requires zoom != 0.0
    ensures Invert(CameraMatrix(x, y, zoom, width, height)) == Affine(zoom, zoom, width / 2.0 - zoom * x, height / 2.0 - zoom * y)
  {
    CameraMatrixForm(x, y, zoom, width, height);
    InverseOfCameraAxis(x, zoom, width);
    InverseOfCameraAxis(y, zoom, height);
  }

  lemma InverseOfCameraAxis(f: real, zoom: real, size: real)
    requires zoom != 0.0
    ensures 1.0 / (1.0 / zoom) == zoom
    ensures -(f - size / 2.0 / zoom) / (1.0 / zoom) == size / 2.0 - zoom * f
  {
    assert (f - size / 2.0 / zoom) / (1.0 / zoom) == (f - size / 2.0 / zoom) * zoom;
  }

  lemma ProjectionAxisX(f: real, zoom: real, width: real)
    requires width != 0.0
    ensures (2.0 / width) * zoom == 2.0 * zoom / width
    ensures (2.0 / width) * (width / 2.0 - zoom * f) + -1.0 == -2.0 * zoom * f / width
  {
    assert (2.0 / width) * (width / 2.0) == 1.0;
  }

  lemma ProjectionAxisY(f: real, zoom: real, height: real)
    requires height != 0.0
    ensures (-2.0 / height) * zoom == -2.0 * zoom / height
    ensures (-2.0 / height) * (height / 2.0 - zoom * f) + 1.0 == 2.0 * zoom * f / height
  {
    assert (-2.0 / height) * (height / 2.0) == -1.0;
  }

  /** The world point that a clip-space point unprojects to. */
  function Unproject(m: Affine, clip: Vec2): (p: Vec2)
    requires Invertible(m)
    ensures Apply(m, p) == clip
  {
    InvertApply(m, clip);
    Apply(Invert(m), clip)
  }

  /** Unprojecting through the view-projection matrix, written out: the clip
      origin is the focus, and the clip square spans `width / zoom` by
      `height / zoom` world units. */
  lemma UnprojectForm(x: real, y: real, zoom: real, width: real, height: real, clip: Vec2)
    requires zoom != 0.0 && width != 0.0 && height != 0.0
    ensures Unproject(ViewProjection(x, y, zoom, width, height), clip)
         == Vec2(x + clip.x * width / (2.0 * zoom), y - clip.y * height / (2.0 * zoom))
  {
    ViewProjectionForm(x, y, zoom, width, height);
    UnprojectAxisX(x, zoom, width, clip.x);
    UnprojectAxisY(y, zoom, height, clip.y);
  }

  lemma UnprojectAxisX(f: real, zoom: real, width: real, c: real)
    requires zoom != 0.0 && width != 0.0
    ensures (1.0 / (2.0 * zoom / width)) * c + -(-2.0 * zoom * f / width) / (2.0 * zoom / width)
         == f + c * width / (2.0 * zoom)
  {
    var s := 2.0 * zoom / width;
    assert s * width == 2.0 * zoom;
    assert 1.0 / s == width / (2.0 * zoom);
    assert -2.0 * zoom * f / width == -(s * f);
  }

  lemma UnprojectAxisY(f: real, zoom: real, height: real, c: real)
    requires zoom != 0.0 && height != 0.0
    ensures (1.0 / (-2.0 * zoom / height)) * c + -(2.0 * zoom * f / height) / (-2.0 * zoom / height)
         == f - c * height / (2.0 * zoom)
  {
    var s := -2.0 * zoom / height;
    assert s * height == -2.0 * zoom;
    assert 1.0 / s == -height / (2.0 * zoom);
    assert 2.0 * zoom * f / height == -(s * f);
  }

  /** The clip origin always unprojects to the focus, so zooming about the
      centre keeps the focus under the centre of the canvas. */
  lemma CentreUnprojectsToFocus(x: real, y: real, zoom: real, width: real, height: real)
    requires zoom != 0.0 && width != 0.0 && height != 0.0
    ensures Unproject(ViewProjection(x, y, zoom, width, height), Vec2(0.0, 0.0)) == Vec2(x, y)
  {
    UnprojectForm(x, y, zoom, width, height, Vec2(0.0, 0.0));
  }

  /** Zooming without moving the focus keeps the point under `clip` fixed
      only at the clip origin: off-centre, a one-stage zoom drifts. */
  lemma ZoomWithoutShiftDrifts(x: real, y: real, z0: real, z1: real, width: real, height: real, clip: Vec2)
    requires z0 > 0.0 && z1 > 0.0 && width > 0.0 && height > 0.0
    requires z0 != z1 && clip != Vec2(0.0, 0.0)
    ensures Unproject(ViewProjection(x, y, z1, width, height), clip) != Unproject(ViewProjection(x, y, z0, width, height), clip)
  {
    UnprojectForm(x, y, z0, width, height, clip);
    UnprojectForm(x, y, z1, width, height, clip);
    if clip.x != 0.0 {
      QuotientsDiffer(clip.x * width, 2.0 * z0, 2.0 * z1);
    } else {
      QuotientsDiffer(clip.y * height, 2.0 * z0, 2.0 * z1);
    }
  }

  lemma QuotientsDiffer(k: real, a: real, b: real)
    requires k != 0.0 && a != 0.0 && b != 0.0 && a != b
    ensures k / a != k / b
  {
  }

  /** The two-stage correction of `zoomToScreenCoord`: shifting the focus by
      (pre-zoom world point - post-zoom world point) brings the world point
      under `clip` back to where it was before the zoom. */
  lemma ZoomAnchor(x: real, y: real, z0: real, z1: real, width: real, height: real, clip: Vec2)
    requires z0 != 0.0 && z1 != 0.0 && width != 0.0 && height != 0.0
    ensures var pre := Unproject(ViewProjection(x, y, z0, width, height), clip);
            var post := Unproject(ViewProjection(x, y, z1, width, height), clip);
            Unproject(ViewProjection(x + (pre.x - post.x), y + (pre.y - post.y), z1, width, height), clip) == pre
  {
    var pre := Unproject(ViewProjection(x, y, z0, width, height), clip);
    var post := Unproject(ViewProjection(x, y, z1, width, height), clip);
    UnprojectForm(x, y, z0, width, height, clip);
    UnprojectForm(x, y, z1, width, height, clip);
    UnprojectForm(x + (pre.x - post.x), y + (pre.y - post.y), z1, width, height, clip);
  }

  /** `getClipSpacePosition`: a client position, relative to the canvas's
      bounding rectangle at (`left`, `top`) with CSS size `clientWidth` x
      `clientHeight`, in clip space. */
  function ClipSpacePosition(clientX: real, clientY: real, left: real, top: real, clientWidth: real, clientHeight: real): (c: Vec2)
    requires clientWidth != 0.0 && clientHeight != 0.0
    ensures 0.0 < clientWidth && left <= clientX <= left + clientWidth ==> -1.0 <= c.x <= 1.0
    ensures 0.0 < clientHeight && top <= clientY <= top + clientHeight ==> -1.0 <= c.y <= 1.0
  {
    var normalizedX := (clientX - left) / clientWidth;
    var normalizedY := (clientY - top) / clientHeight;
    Vec2(normalizedX * 2.0 - 1.0, normalizedY * -2.0 + 1.0)
  }

  /** The clip conversion is the pixel projection applied to the position
      relative to the canvas: `clipX = 2 sx / W - 1`, `clipY = 1 - 2 sy / H`. */
  lemma ClipSpaceIsProjection(clientX: real, clientY: real, left: real, top: real, clientWidth: real, clientHeight: real)
    requires clientWidth != 0.0 && clientHeight != 0.0
    ensures ClipSpacePosition(clientX, clientY, left, top, clientWidth, clientHeight)
         == Apply(Projection(clientWidth, clientHeight), Vec2(clientX - left, clientY - top))
    ensures ClipSpacePosition(left + clientWidth / 2.0, top + clientHeight / 2.0, left, top, clientWidth, clientHeight) == Vec2(0.0, 0.0)
  {
    assert (clientX - left) / clientWidth * 2.0 - 1.0 == (2.0 / clientWidth) * (clientX - left) + -1.0;
    assert (clientY - top) / clientHeight * -2.0 + 1.0 == (-2.0 / clientHeight) * (clientY - top) + 1.0;
  }

  /** The `camera(gl, coord)` closure: `_x`, `_y`, `_zoom` and `_viewProjMatrix`,
      over a canvas of `width` x `height` drawing-buffer pixels. */
  class Camera {
    var x: real
    var y: real
    var zoom: real
    const width: real
    const height: real
    var viewProjMatrix: Affine

    /** The matrix is always the one rebuilt from the four scalars. */
    ghost predicate Valid()
      reads this
    {
      zoom > 0.0 && width > 0.0 && height > 0.0 &&
      viewProjMatrix == ViewProjection(x, y, zoom, width, height)
    }

    /** The `coord` getter. */
    function Coord(): Vec2
      reads this
    {
      Vec2(x, y)
    }

    /** `camera(gl, coord)`: zoom 1, focused on `coord`. */
    constructor (width: real, height: real, coord: Vec2)
      requires width > 0.0 && height > 0.0
      ensures Valid()
      ensures x == coord.x && y == coord.y && zoom == 1.0
      ensures this.width == width && this.height == height
    {
      this.width := width;
      this.height := height;
      x := coord.x;
      y := coord.y;
      zoom := 1.0;
      viewProjMatrix := ViewProjection(coord.x, coord.y, 1.0, width, height);
    }

    /** `moveTo(x, y)`: a new focus, the same zoom. */
    method MoveTo(newX: real, newY: real)
      requires Valid()
      modifies this
      ensures Valid()
      ensures x == newX && y == newY && zoom == old(zoom)
    {
      x := newX;
      y := newY;
      viewProjMatrix := ViewProjection(x, y, zoom, width, height);
    }

    /** `zoomToCenter(zoom)`: a new zoom, the same focus, which stays under
        the centre of the canvas. */
    method ZoomToCenter(newZoom: real)
      requires Valid()
      requires newZoom > 0.0
      modifies this
      ensures Valid()
      ensures zoom == newZoom && x == old(x) && y == old(y)
      ensures Unproject(viewProjMatrix, Vec2(0.0, 0.0)) == Vec2(x, y)
    {
      zoom := newZoom;
      viewProjMatrix := ViewProjection(x, y, zoom, width, height);
      CentreUnprojectsToFocus(x, y, zoom, width, height);
    }

    /** `zoomToScreenCoord(clientX, clientY, zoom)`: zoom so that the world
        point under the cursor stays under the cursor. The canvas's bounding
        rectangle (`left`, `top`, `clientWidth`, `clientHeight`) is read from
        the DOM in the source and is a parameter here. */
    method ZoomToScreenCoord(clientX: real, clientY: real, newZoom: real,
                             left: real, top: real, clientWidth: real, clientHeight: real)
      requires Valid()
      requires newZoom > 0.0 && clientWidth != 0.0 && clientHeight != 0.0
      modifies this
      ensures Valid()
      ensures zoom == newZoom
      ensures var clip := ClipSpacePosition(clientX, clientY, left, top, clientWidth, clientHeight);
              Unproject(viewProjMatrix, clip) == old(Unproject(viewProjMatrix, clip))
    {
      var clip := ClipSpacePosition(clientX, clientY, left, top, clientWidth, clientHeight);
      var pre := Apply(Invert(viewProjMatrix), clip);
      ghost var x0, y0, z0 := x, y, zoom;
      zoom := newZoom;
      viewProjMatrix := ViewProjection(x, y, zoom, width, height);
      var post := Apply(Invert(viewProjMatrix), clip);
      x := x + (pre.x - post.x);
      y := y + (pre.y - post.y);
      viewProjMatrix := ViewProjection(x, y, zoom, width, height);
      ZoomAnchor(x0, y0, z0, newZoom, width, height, clip);
    }
  }
}
