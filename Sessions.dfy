/**
 * Short editing sessions verified against the handlers' contracts: what a
 * caller can conclude from those contracts alone.
 */
module Sessions {
  import opened Opt
  import opened Geometry
  import History
  import opened Editor

  /** Pointer-down then pointer-up with no move in between commits a one-point stroke. */
  method DotStroke(color: string, p: Point) returns (strokes: seq<Stroke>, undoDepth: nat)
    ensures strokes == [Stroke([p], color, InitialBrushSize)]
    ensures undoDepth == 1
  {
    var e := new ImageEditor(color);
    e.ToggleDrawing();
    e.MouseDown(p);
    assert e.drawingColor == color && e.brushSize == InitialBrushSize && e.image == None && e.lines == [];
    e.MouseUp();
    strokes, undoDepth := e.lines, |e.history|;
  }

  /** Undo removes a committed stroke and redo brings it back. */
  method StrokeUndoRedo(color: string, p: Point, q: Point)
    returns (afterUndo: seq<Stroke>, afterRedo: seq<Stroke>, redoDepth: nat)
    ensures afterUndo == []
    ensures afterRedo == [Stroke([p, q], color, InitialBrushSize)]
    ensures redoDepth == 0
  {
    var e := new ImageEditor(color);
    e.ToggleDrawing();
    e.MouseDown(p);
    e.MouseMove(q);
    assert e.currentLine == [p, q];
    assert e.drawingColor == color && e.brushSize == InitialBrushSize && e.image == None && e.lines == [];
    e.MouseUp();
    var stroke := Stroke([p, q], color, InitialBrushSize);
    assert e.history == [Snapshot([], None)] && e.lines == [stroke];
    e.Undo();
    assert e.Timeline() == History.Timeline([], Snapshot([], None), [Snapshot([stroke], None)]);
    afterUndo := e.lines;
    e.Redo();
    assert e.Timeline() == History.Timeline([Snapshot([], None)], Snapshot([stroke], None), []);
    afterRedo, redoDepth := e.lines, |e.redoStack|;
  }

  /**
   * Upload a 1600x1200 image, switch crop on and apply at once: the image
   * region taken is the default frame scaled by 2 on both axes, the cropped
   * image is installed, and the undo stack holds the two edits.
   */
  method CropDefaultFrame(file: File, cropped: ImageSrc)
    returns (source: Option<Frame>, image: Option<ImageSrc>, undoDepth: nat, cropOn: bool)
    requires MatchesImagePattern(file.mediaType)
    requires file.image.width == 1600 && file.image.height == 1200
    ensures source == Some(Frame(100.0, 100.0, 400.0, 400.0))
    ensures image == Some(cropped) && undoDepth == 2 && !cropOn
  {
    var e := new ImageEditor("black");
    e.Upload(Some(file));
    assert e.history == [Snapshot([], None)] && e.image == Some(file.image);
    e.ToggleCrop();
    source := e.ApplyCrop(cropped);
    image, undoDepth, cropOn := e.image, |e.history|, e.cropMode;
  }

  /**
   * A press in the body of the default frame followed by a move to `p1`
   * translates the frame without resizing it, keeping the pointer inside it.
   */
  method DragCrop(p0: Point, p1: Point) returns (frame: Frame)
    requires HitTest(DefaultFrame, p0) == OnBody
    ensures frame.w == DefaultFrame.w && frame.h == DefaultFrame.h
    ensures GrabOffset(frame, p1) == GrabOffset(DefaultFrame, p0)
    ensures StrictlyInside(frame, p1)
  {
    var e := new ImageEditor("black");
    e.ToggleCrop();
    e.MouseDown(p0);
    e.MouseMove(p1);
    DragKeepsPointerInside(DefaultFrame, p0, DefaultFrame, p1);
    frame := e.cropFrame.value;
  }

  /** A press that hits neither a handle nor the body leaves the frame where it was. */
  method PressOutsideFrame(p0: Point, p1: Point) returns (frame: Option<Frame>)
    requires HitTest(DefaultFrame, p0) == Miss
    ensures frame == Some(DefaultFrame)
  {
    var e := new ImageEditor("black");
    e.ToggleCrop();
    e.MouseDown(p0);
    e.MouseMove(p1);
    e.MouseUp();
    frame := e.cropFrame;
  }

  /**
   * Switching draw mode on while cropping turns crop mode off but keeps the
   * frame. `ApplyCrop` itself tests only the frame, but the editor offers it
   * only in crop mode, and switching crop on again replaces the frame.
   */
  method DrawToggleKeepsFrame() returns (cropOn: bool, drawOn: bool, frame: Option<Frame>)
    ensures !cropOn && drawOn && frame == Some(DefaultFrame)
  {
    var e := new ImageEditor("black");
    e.ToggleCrop();
    e.ToggleDrawing();
    cropOn, drawOn, frame := e.cropMode, e.drawMode, e.cropFrame;
  }

  /** Cropping with no image loaded changes nothing and takes no snapshot. */
  method CropWithoutImage(cropped: ImageSrc) returns (source: Option<Frame>, undoDepth: nat, cropOn: bool)
    ensures source == None && undoDepth == 0 && cropOn
  {
    var e := new ImageEditor("black");
    e.ToggleCrop();
    source := e.ApplyCrop(cropped);
    undoDepth, cropOn := |e.history|, e.cropMode;
  }

  /** A file whose type the guard refuses leaves the image and the history untouched. */
  method RejectFile(file: File) returns (image: Option<ImageSrc>, undoDepth: nat)
    requires !MatchesImagePattern(file.mediaType)
    ensures image == None && undoDepth == 0
  {
    var e := new ImageEditor("black");
    e.Upload(Some(file));
    image, undoDepth := e.image, |e.history|;
  }
}
