/**
 * Crop-frame geometry of the image editor: the eight resize handles of a
 * frame, the resize rule for a dragged handle, hit-testing a pointer against
 * handles and frame body, the drag translation, and the mapping of a frame
 * from canvas space into an image's intrinsic space.
 *
 * Coordinates are exact reals (the editor computes them in doubles).
 */
module Geometry {
  import opened Opt

  /** The fixed size of the drawing surface, in canvas pixels. */
  const CanvasWidth: real := 800.0
  const CanvasHeight: real := 600.0

  /** A pointer within this distance (on both axes, strictly) grabs a handle. */
  const HandleTolerance: real := 6.0

  datatype Point = Point(x: real, y: real)

  /** A crop frame: origin at the top-left, width to the right, height downwards. */
  datatype Frame = Frame(x: real, y: real, w: real, h: real)

  /** The frame installed when crop mode is switched on. */
  const DefaultFrame: Frame := Frame(50.0, 50.0, 200.0, 200.0)

  /** The eight handles, named by compass direction from the frame's centre. */
  datatype HandleName = Nw | N | Ne | E | Se | S | Sw | W

  datatype Handle = Handle(name: HandleName, x: real, y: real)

  /** The handle names, in the order the handles are listed (and hit-tested). */
  const HandleNames: seq<HandleName> := [Nw, N, Ne, E, Se, S, Sw, W]

  function Left(f: Frame): real { f.x }
  function Right(f: Frame): real { f.x + f.w }
  function Top(f: Frame): real { f.y }
  function Bottom(f: Frame): real { f.y + f.h }

  /** Which sides of the frame a handle drags (the others stay anchored). */
  predicate MovesLeft(name: HandleName) { name == Nw || name == Sw || name == W }
  predicate MovesRight(name: HandleName) { name == Ne || name == E || name == Se }
  predicate MovesTop(name: HandleName) { name == Nw || name == N || name == Ne }
  predicate MovesBottom(name: HandleName) { name == Se || name == S || name == Sw }

  /** Where a handle sits horizontally: on the side it drags, or midway. */
  function AnchorX(f: Frame, name: HandleName): real {
    if MovesLeft(name) then Left(f)
    else if MovesRight(name) then Right(f)
    else (Left(f) + Right(f)) / 2.0
  }

  function AnchorY(f: Frame, name: HandleName): real {
    if MovesTop(name) then Top(f)
    else if MovesBottom(name) then Bottom(f)
    else (Top(f) + Bottom(f)) / 2.0
  }

  /** A frame is determined by its four sides. */
  lemma FrameBySides(f: Frame, g: Frame)
    requires Left(f) == Left(g) && Right(f) == Right(g)
    requires Top(f) == Top(g) && Bottom(f) == Bottom(g)
    ensures f == g
  {
  }

  /** The eight resize handles: four corners and four edge midpoints. */
  function Handles(f: Frame): (hs: seq<Handle>)
    ensures |hs| == |HandleNames|
    ensures forall i :: 0 <= i < |hs| ==>
      hs[i].name == HandleNames[i] &&
      hs[i].x == AnchorX(f, hs[i].name) && hs[i].y == AnchorY(f, hs[i].name)
  {
    [ Handle(Nw, f.x, f.y),
      Handle(N, f.x + f.w / 2.0, f.y),
      Handle(Ne, f.x + f.w, f.y),
      Handle(E, f.x + f.w, f.y + f.h / 2.0),
      Handle(Se, f.x + f.w, f.y + f.h),
      Handle(S, f.x + f.w / 2.0, f.y + f.h),
      Handle(Sw, f.x, f.y + f.h),
      Handle(W, f.x, f.y + f.h / 2.0) ]
  }

  /**
   * The frame after the handle `name` is dragged to (mx, my): the sides that
   * handle drags go to the pointer, the others stay. No clamping: width and
   * height may become zero or negative.
   */
  function Resize(f: Frame, name: HandleName, mx: real, my: real): (r: Frame)
    ensures Left(r) == (if MovesLeft(name) then mx else Left(f))
    ensures Right(r) == (if MovesRight(name) then mx else Right(f))
    ensures Top(r) == (if MovesTop(name) then my else Top(f))
    ensures Bottom(r) == (if MovesBottom(name) then my else Bottom(f))
  {
    match name
    case Nw => Frame(mx, my, f.w + (f.x - mx), f.h + (f.y - my))
    case N => Frame(f.x, my, f.w, f.h + (f.y - my))
    case Ne => Frame(f.x, my, mx - f.x, f.h + (f.y - my))
    case E => Frame(f.x, f.y, mx - f.x, f.h)
    case Se => Frame(f.x, f.y, mx - f.x, my - f.y)
    case S => Frame(f.x, f.y, f.w, my - f.y)
    case Sw => Frame(mx, f.y, f.w + (f.x - mx), my - f.y)
    case W => Frame(mx, f.y, f.w + (f.x - mx), f.h)
  }

  /** Dragging a handle to the place it already occupies changes nothing. */
  lemma ResizeAtOwnHandle(f: Frame, i: nat)
    requires i < |HandleNames|
    ensures Resize(f, Handles(f)[i].name, Handles(f)[i].x, Handles(f)[i].y) == f
  {
    var hd := Handles(f)[i];
    assert hd.name == HandleNames[i];
    FrameBySides(Resize(f, hd.name, hd.x, hd.y), f);
  }

  /**
   * Only the last pointer position of a resize gesture matters: two moves with
   * the same handle give the frame of the second move alone.
   */
  lemma ResizeLastMoveWins(f: Frame, name: HandleName, mx1: real, my1: real, mx2: real, my2: real)
    ensures Resize(Resize(f, name, mx1, my1), name, mx2, my2) == Resize(f, name, mx2, my2)
  {
    FrameBySides(Resize(Resize(f, name, mx1, my1), name, mx2, my2), Resize(f, name, mx2, my2));
  }

  /** Resizing does not clamp: dragging `se` above and left of the origin inverts the frame. */
  lemma ResizeMayInvert()
    ensures Resize(DefaultFrame, Se, 10.0, 20.0) == Frame(50.0, 50.0, -40.0, -30.0)
  {
  }

  lemma ResizeExamples()
    ensures Resize(Frame(50.0, 50.0, 200.0, 200.0), Se, 300.0, 320.0) == Frame(50.0, 50.0, 250.0, 270.0)
    ensures Resize(Frame(50.0, 50.0, 200.0, 200.0), Nw, 80.0, 90.0) == Frame(80.0, 90.0, 170.0, 160.0)
  {
  }

  function Abs(r: real): real { if r < 0.0 then -r else r }

  /** The pointer is close enough to grab the handle. */
  predicate Near(hd: Handle, p: Point) {
    Abs(hd.x - p.x) < HandleTolerance && Abs(hd.y - p.y) < HandleTolerance
  }

  /** The index of the first handle the pointer grabs, if any. */
  function FirstNear(hs: seq<Handle>, p: Point): (r: Option<nat>)
    ensures r.Some? ==>
              && r.value < |hs|
              && Near(hs[r.value], p)
              && forall j :: 0 <= j < r.value ==> !Near(hs[j], p)
    ensures r.None? ==> forall j :: 0 <= j < |hs| ==> !Near(hs[j], p)
  {
    if hs == [] then None
    else if Near(hs[0], p) then Some(0)
    else match FirstNear(hs[1..], p)
      case None => None
      case Some(i) => Some(i + 1)
  }

  /** Strict containment in the frame's interior; the border does not count. */
  predicate StrictlyInside(f: Frame, p: Point) {
    Left(f) < p.x < Right(f) && Top(f) < p.y < Bottom(f)
  }

  datatype Hit = OnHandle(name: HandleName) | OnBody | Miss

  /**
   * What a crop-mode pointer-down grabs: a handle (handles are tried first,
   * in list order), else the body, else nothing.
   */
  function HitTest(f: Frame, p: Point): (r: Hit)
    ensures r.OnBody? ==> StrictlyInside(f, p)
    ensures r.Miss? ==> !StrictlyInside(f, p)
  {
    var hs := Handles(f);
    match FirstNear(hs, p)
    case Some(i) => OnHandle(hs[i].name)
    case None => if StrictlyInside(f, p) then OnBody else Miss
  }

  /**
   * A handle within reach always wins over the body, and the one grabbed is
   * the first in list order; the body is grabbed only by a press strictly
   * inside the frame that reaches no handle; anything else misses.
   */
  lemma HitTestPriority(f: Frame, p: Point)
    ensures HitTest(f, p).OnHandle? <==> exists i :: 0 <= i < |HandleNames| && Near(Handles(f)[i], p)
    ensures HitTest(f, p).OnHandle? ==>
              exists i :: && 0 <= i < |HandleNames|
                          && HitTest(f, p).name == HandleNames[i]
                          && Near(Handles(f)[i], p)
                          && forall j :: 0 <= j < i ==> !Near(Handles(f)[j], p)
    ensures HitTest(f, p).OnBody? <==> !HitTest(f, p).OnHandle? && StrictlyInside(f, p)
    ensures HitTest(f, p).Miss? <==> !HitTest(f, p).OnHandle? && !StrictlyInside(f, p)
  {
    var hs := Handles(f);
    match FirstNear(hs, p)
    case Some(i) =>
      assert Near(hs[i], p) && HitTest(f, p).name == HandleNames[i];
    case None =>
  }

  /** A press on the bottom-right corner of the default frame grabs the `se` handle. */
  lemma HitDefaultSeCorner()
    ensures HitTest(DefaultFrame, Point(250.0, 250.0)) == OnHandle(Se)
  {
    var hs := Handles(DefaultFrame);
    var p := Point(250.0, 250.0);
    assert !Near(hs[0], p) && !Near(hs[1], p) && !Near(hs[2], p) && !Near(hs[3], p);
    assert Near(hs[4], p) && hs[4].name == Se;
    assert FirstNear(hs[3..], p) == Some(1);
    assert FirstNear(hs, p) == Some(4);
  }

  /** The pointer's position relative to the frame origin when a drag starts. */
  function GrabOffset(f: Frame, p: Point): (r: Point)
    ensures f.x + r.x == p.x && f.y + r.y == p.y
  {
    Point(p.x - f.x, p.y - f.y)
  }

  /** The frame translated so that the grab offset is kept under the pointer. */
  function Move(f: Frame, p: Point, offset: Point): (r: Frame)
    ensures r.w == f.w && r.h == f.h
    ensures GrabOffset(r, p) == offset
  {
    f.(x := p.x - offset.x, y := p.y - offset.y)
  }

  /**
   * Dragging keeps the frame under the pointer: a frame of the same size,
   * moved with the offset recorded at the grab, still strictly contains the
   * pointer wherever it goes; and moving back to the grab point is the
   * identity.
   */
  lemma DragKeepsPointerInside(f0: Frame, p0: Point, f: Frame, p: Point)
    requires StrictlyInside(f0, p0)
    requires f.w == f0.w && f.h == f0.h
    ensures StrictlyInside(Move(f, p, GrabOffset(f0, p0)), p)
    ensures Move(f0, p0, GrabOffset(f0, p0)) == f0
  {
  }

  /**
   * The rectangle of the image that the frame selects: the frame scaled from
   * the canvas size to the image's intrinsic size, axis by axis.
   */
  function SourceRect(f: Frame, imageWidth: int, imageHeight: int): (r: Frame)
    ensures r.x * CanvasWidth == f.x * imageWidth as real
    ensures r.w * CanvasWidth == f.w * imageWidth as real
    ensures r.y * CanvasHeight == f.y * imageHeight as real
    ensures r.h * CanvasHeight == f.h * imageHeight as real
  {
    Frame(f.x / CanvasWidth * imageWidth as real,
          f.y / CanvasHeight * imageHeight as real,
          f.w / CanvasWidth * imageWidth as real,
          f.h / CanvasHeight * imageHeight as real)
  }

  /** The frame lies on the canvas, with non-negative size. */
  predicate OnCanvas(f: Frame) {
    0.0 <= f.x && 0.0 <= f.w && f.x + f.w <= CanvasWidth &&
    0.0 <= f.y && 0.0 <= f.h && f.y + f.h <= CanvasHeight
  }

  /** A frame on the canvas selects a rectangle inside the image. */
  lemma SourceRectInsideImage(f: Frame, imageWidth: nat, imageHeight: nat)
    requires OnCanvas(f)
    ensures var r := SourceRect(f, imageWidth, imageHeight);
      0.0 <= r.x && 0.0 <= r.w && r.x + r.w <= imageWidth as real &&
      0.0 <= r.y && 0.0 <= r.h && r.y + r.h <= imageHeight as real
  {
    var r := SourceRect(f, imageWidth, imageHeight);
    var iw, ih := imageWidth as real, imageHeight as real;
    assert (r.x + r.w) * CanvasWidth == (f.x + f.w) * iw;
    assert (f.x + f.w) * iw <= CanvasWidth * iw;
    assert (r.y + r.h) * CanvasHeight == (f.y + f.h) * ih;
    assert (f.y + f.h) * ih <= CanvasHeight * ih;
  }

  /** The whole canvas selects the whole image. */
  lemma SourceRectOfWholeCanvas(imageWidth: int, imageHeight: int)
    ensures SourceRect(Frame(0.0, 0.0, CanvasWidth, CanvasHeight), imageWidth, imageHeight)
      == Frame(0.0, 0.0, imageWidth as real, imageHeight as real)
  {
  }

  lemma SourceRectExample()
    ensures SourceRect(Frame(100.0, 100.0, 400.0, 300.0), 1600, 1200) == Frame(200.0, 200.0, 800.0, 600.0)
  {
  }
}
