/**
 * The editing engine of the image editor: the state the component keeps
 * (image, strokes, modes, crop frame, gesture tracking, undo/redo stacks) and
 * the handlers that update it, each run to completion as a sequence of field
 * updates.
 */
module Editor {
  import opened Opt
  import opened Geometry
  import History

  /**
   * An image, identified by its source reference (an object URL or a data
   * URL). Decoding a source always yields the same bitmap, so the intrinsic
   * size travels with the reference.
   */
  datatype ImageSrc = ImageSrc(uri: string, width: nat, height: nat)

  /** A committed freehand stroke. */
  datatype Stroke = Stroke(points: seq<Point>, color: string, size: int)

  /** What undo and redo save and restore: the strokes and the image reference. */
  datatype Snapshot = Snapshot(lines: seq<Stroke>, imageSrc: Option<ImageSrc>)

  /** A file handed over by the file picker: its media type and the image it decodes to. */
  datatype File = File(mediaType: string, image: ImageSrc)

  /** The default brush width. */
  const InitialBrushSize: int := 3

  /**
   * The upload guard: the media type matches the unanchored pattern `image.*`,
   * that is, "image" occurs somewhere in it.
   */
  predicate MatchesImagePattern(mediaType: string)
    ensures MatchesImagePattern(mediaType) ==> |mediaType| >= 5
    ensures "image" <= mediaType ==> MatchesImagePattern(mediaType)
    decreases |mediaType|
  {
    |mediaType| >= 5 && (mediaType[..5] == "image" || MatchesImagePattern(mediaType[1..]))
  }

  /** "image" occurs in `mediaType` at index `i`. */
  predicate ImageAt(mediaType: string, i: nat) {
    i + 5 <= |mediaType| && mediaType[i..i + 5] == "image"
  }

  /** The guard accepts exactly the media types that contain "image" somewhere. */
  lemma {:induction false} MatchesImagePatternIsContainment(mediaType: string)
    ensures MatchesImagePattern(mediaType) <==> exists i: nat :: ImageAt(mediaType, i)
    decreases |mediaType|
  {
    if |mediaType| >= 5 {
      var rest := mediaType[1..];
      MatchesImagePatternIsContainment(rest);
      if mediaType[..5] == "image" {
        assert mediaType[0..5] == mediaType[..5];
        assert ImageAt(mediaType, 0);
      }
      if MatchesImagePattern(rest) {
        var i: nat :| ImageAt(rest, i);
        assert mediaType[i + 1..i + 6] == rest[i..i + 5];
        assert ImageAt(mediaType, i + 1);
      }
      if i: nat :| ImageAt(mediaType, i) {
        if i > 0 {
          assert rest[i - 1..i + 4] == mediaType[i..i + 5];
          assert ImageAt(rest, i - 1);
        } else {
          assert mediaType[..5] == mediaType[0..5];
        }
      }
    }
  }

  /** A type that does not start with 'i' passes the guard only through its tail. */
  lemma NoImagePrefix(mediaType: string)
    requires |mediaType| > 0 && mediaType[0] != 'i'
    requires !MatchesImagePattern(mediaType[1..])
    ensures !MatchesImagePattern(mediaType)
  {
    if |mediaType| >= 5 {
      assert mediaType[..5][0] != "image"[0];
    }
  }

  /** Image media types pass the guard, and so does any type merely containing "image". */
  lemma ImageTypesAccepted()
    ensures MatchesImagePattern("image/png")
    ensures MatchesImagePattern("application/x-image")
  {
    assert ImageAt("application/x-image", 14);
    MatchesImagePatternIsContainment("application/x-image");
  }

  /** A text media type contains no "image" and is refused. */
  lemma TextTypeRefused()
    ensures !MatchesImagePattern("text/plain")
  {
    NoImagePrefix("plain");
    NoImagePrefix("/plain");
    NoImagePrefix("t/plain");
    NoImagePrefix("xt/plain");
    NoImagePrefix("ext/plain");
    NoImagePrefix("text/plain");
  }

  class ImageEditor {
    var image: Option<ImageSrc>

    var drawMode: bool
    var isDrawing: bool
    var lines: seq<Stroke>
    var currentLine: seq<Point>
    var drawingColor: string
    var brushSize: int

    var cropMode: bool
    var cropFrame: Option<Frame>
    var isDraggingCrop: bool
    var dragCropOffset: Point
    var resizingCropHandle: Option<HandleName>

    var history: seq<Snapshot>
    var redoStack: seq<Snapshot>

    /**
     * Draw mode and crop mode are never both on, crop mode always has a
     * frame, and a stroke in progress holds at least its pointer-down point.
     */
    ghost predicate Valid()
      reads this
    {
      && !(drawMode && cropMode)
      && (cropMode ==> cropFrame.Some?)
      && (isDrawing ==> |currentLine| >= 1)
    }

    /** The document on screen. */
    function Document(): Snapshot
      reads this`lines, this`image
    {
      Snapshot(lines, image)
    }

    /** The undo stack, the document on screen and the redo stack. */
    function Timeline(): History.Timeline<Snapshot>
      reads this`history, this`lines, this`image, this`redoStack
    {
      History.Timeline(history, Document(), redoStack)
    }

    constructor (initialColor: string)
      ensures Valid()
      ensures image == None && lines == [] && history == [] && redoStack == []
      ensures !drawMode && !isDrawing && currentLine == []
      ensures drawingColor == initialColor && brushSize == InitialBrushSize
      ensures !cropMode && cropFrame == None && !isDraggingCrop
      ensures dragCropOffset == Point(0.0, 0.0) && resizingCropHandle == None
    {
      image := None;
      drawMode, isDrawing := false, false;
      lines, currentLine := [], [];
      drawingColor, brushSize := initialColor, InitialBrushSize;
      cropMode, cropFrame := false, None;
      isDraggingCrop, dragCropOffset := false, Point(0.0, 0.0);
      resizingCropHandle := None;
      history, redoStack := [], [];
    }

    /** Push the document on the undo stack and invalidate the redo stack. */
    method SaveState()
      requires Valid()
      modifies this`history, this`redoStack
      ensures Valid()
      ensures Timeline() == History.Save(old(Timeline()))
    {
      history := history + [Snapshot(lines, image)];
      redoStack := [];
    }

    method Undo()
      requires Valid()
      modifies this`history, this`redoStack, this`lines, this`image
      ensures Valid()
      ensures Timeline() == History.Undo(old(Timeline()))
    {
      if |history| == 0 {
        return;
      }
      var last := history[|history| - 1];
      redoStack := redoStack + [Snapshot(lines, image)];
      lines := last.lines;
      image := last.imageSrc;
      history := history[..|history| - 1];
    }

    method Redo()
      requires Valid()
      modifies this`history, this`redoStack, this`lines, this`image
      ensures Valid()
      ensures Timeline() == History.Redo(old(Timeline()))
    {
      if |redoStack| == 0 {
        return;
      }
      var last := redoStack[|redoStack| - 1];
      history := history + [Snapshot(lines, image)];
      lines := last.lines;
      image := last.imageSrc;
      redoStack := redoStack[..|redoStack| - 1];
    }

    /**
     * Load a picked file. No file, or a type the guard refuses, changes
     * nothing; otherwise the old document is snapshotted and the image replaced.
     */
    method Upload(file: Option<File>)
      requires Valid()
      modifies this`history, this`redoStack, this`image
      ensures Valid()
      ensures file.None? || !MatchesImagePattern(file.value.mediaType) ==>
        Timeline() == old(Timeline())
      ensures file.Some? && MatchesImagePattern(file.value.mediaType) ==>
        Timeline() == History.Commit(old(Timeline()), Snapshot(lines, Some(file.value.image)))
    {
      if file.None? {
        return;
      }
      if !MatchesImagePattern(file.value.mediaType) {
        return;
      }
      SaveState();
      image := Some(file.value.image);
    }

    /** Flip draw mode; crop mode always ends up off (its frame is kept). */
    method ToggleDrawing()
      requires Valid()
      modifies this`drawMode, this`cropMode
      ensures Valid()
      ensures drawMode == !old(drawMode) && !cropMode
    {
      drawMode := !drawMode;
      cropMode := false;
    }

    /**
     * Switching crop on installs the default frame and turns draw mode off;
     * switching it off drops the frame.
     */
    method ToggleCrop()
      requires Valid()
      modifies this`cropMode, this`cropFrame, this`drawMode
      ensures Valid()
      ensures cropMode == !old(cropMode)
      ensures cropMode ==> cropFrame == Some(DefaultFrame) && !drawMode
      ensures !cropMode ==> cropFrame == None && drawMode == old(drawMode)
    {
      if !cropMode {
        cropFrame := Some(DefaultFrame);
        cropMode := true;
        drawMode := false;
      } else {
        cropMode := false;
        cropFrame := None;
      }
    }

    /**
     * Crop the image to the frame. Without a frame or an image nothing
     * changes and `None` is returned. Otherwise the document is snapshotted,
     * `cropped` (the bitmap resampled from the returned source rectangle)
     * becomes the image, and crop mode ends with its frame cleared.
     */
    method ApplyCrop(cropped: ImageSrc) returns (source: Option<Frame>)
      requires Valid()
      modifies this`history, this`redoStack, this`image, this`cropMode, this`cropFrame
      ensures Valid()
      ensures old(cropFrame).None? || old(image).None? ==>
        && source == None
        && Timeline() == old(Timeline())
        && cropMode == old(cropMode) && cropFrame == old(cropFrame)
      ensures old(cropFrame).Some? && old(image).Some? ==>
        && source == Some(SourceRect(old(cropFrame).value, old(image).value.width, old(image).value.height))
        && Timeline() == History.Commit(old(Timeline()), Snapshot(lines, Some(cropped)))
        && !cropMode && cropFrame == None
    {
      if cropFrame.None? || image.None? {
        return None;
      }
      SaveState();
      var img := image.value;
      source := Some(SourceRect(cropFrame.value, img.width, img.height));
      image := Some(cropped);
      cropMode := false;
      cropFrame := None;
    }

    /**
     * Pointer-down at `p` (canvas space). In draw mode a stroke starts at `p`.
     * In crop mode a handle under the pointer starts a resize, else a press
     * strictly inside the frame starts a drag and records the grab offset,
     * else nothing happens.
     */
    method MouseDown(p: Point)
      requires Valid()
      modifies this`isDrawing, this`currentLine, this`resizingCropHandle, this`isDraggingCrop, this`dragCropOffset
      ensures Valid()
      ensures
        if drawMode then
          && isDrawing && currentLine == [p]
          && resizingCropHandle == old(resizingCropHandle)
          && isDraggingCrop == old(isDraggingCrop) && dragCropOffset == old(dragCropOffset)
        else
          && isDrawing == old(isDrawing) && currentLine == old(currentLine)
          && if cropMode && cropFrame.Some? then
               match HitTest(cropFrame.value, p)
               case OnHandle(name) =>
                 && resizingCropHandle == Some(name)
                 && isDraggingCrop == old(isDraggingCrop) && dragCropOffset == old(dragCropOffset)
               case OnBody =>
                 && isDraggingCrop && dragCropOffset == GrabOffset(cropFrame.value, p)
                 && resizingCropHandle == old(resizingCropHandle)
               case Miss =>
                 && resizingCropHandle == old(resizingCropHandle)
                 && isDraggingCrop == old(isDraggingCrop) && dragCropOffset == old(dragCropOffset)
             else
               && resizingCropHandle == old(resizingCropHandle)
               && isDraggingCrop == old(isDraggingCrop) && dragCropOffset == old(dragCropOffset)
    {
      if drawMode {
        isDrawing := true;
        currentLine := [p];
        return;
      }
      if cropMode && cropFrame.Some? {
        var frame := cropFrame.value;
        match HitTest(frame, p)
        case OnHandle(name) =>
          resizingCropHandle := Some(name);
        case OnBody =>
          isDraggingCrop := true;
          dragCropOffset := GrabOffset(frame, p);
        case Miss =>
      }
    }

    /**
     * Pointer-move to `p`: extend the stroke being drawn, else resize the
     * frame by the handle being dragged, else translate the frame being
     * dragged; otherwise nothing changes.
     */
    method MouseMove(p: Point)
      requires Valid()
      modifies this`currentLine, this`cropFrame
      ensures Valid()
      ensures drawMode && isDrawing ==>
        currentLine == old(currentLine) + [p] && cropFrame == old(cropFrame)
      ensures !(drawMode && isDrawing) ==> currentLine == old(currentLine)
      ensures !(drawMode && isDrawing) && resizingCropHandle.Some? && old(cropFrame).Some? ==>
        cropFrame == Some(Resize(old(cropFrame).value, resizingCropHandle.value, p.x, p.y))
      ensures !(drawMode && isDrawing) && !(resizingCropHandle.Some? && old(cropFrame).Some?) ==>
        cropFrame == (if isDraggingCrop && old(cropFrame).Some?
                      then Some(Move(old(cropFrame).value, p, dragCropOffset))
                      else old(cropFrame))
    {
      if drawMode && isDrawing {
        currentLine := currentLine + [p];
        return;
      }
      if resizingCropHandle.Some? && cropFrame.Some? {
        cropFrame := Some(Resize(cropFrame.value, resizingCropHandle.value, p.x, p.y));
        return;
      }
      if isDraggingCrop && cropFrame.Some? {
        cropFrame := Some(Move(cropFrame.value, p, dragCropOffset));
      }
    }

    /**
     * Pointer-up (also pointer-leave). A stroke being drawn is committed:
     * the document is snapshotted and the stroke, with the current colour and
     * brush size, appended. Any crop drag or resize ends.
     */
    method MouseUp()
      requires Valid()
      modifies this`history, this`redoStack, this`lines, this`currentLine, this`isDrawing,
        this`isDraggingCrop, this`resizingCropHandle
      ensures Valid()
      ensures
        if old(drawMode && isDrawing) then
          && Timeline() == History.Commit(old(Timeline()),
               Snapshot(old(lines) + [Stroke(old(currentLine), drawingColor, brushSize)], image))
          && currentLine == [] && !isDrawing
          && |old(currentLine)| >= 1
        else
          Timeline() == old(Timeline()) && currentLine == old(currentLine) && isDrawing == old(isDrawing)
      ensures !isDraggingCrop && resizingCropHandle == None
    {
      if drawMode && isDrawing {
        SaveState();
        lines := lines + [Stroke(currentLine, drawingColor, brushSize)];
        currentLine := [];
        isDrawing := false;
      }
      isDraggingCrop := false;
      resizingCropHandle := None;
    }
  }
}
