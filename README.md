# Image editor editing engine, in Dafny

This project models the editing engine of a small in-browser image editor
(`src/ImageEditor.jsx`). The editor holds one image and a list of freehand
strokes. It has a draw mode and a crop mode, which are never both on. In crop
mode a rectangular crop frame with eight resize handles can be dragged and
resized on an 800×600 canvas, then applied to the image. Uploads, committed
strokes and crops can be undone and redone.

The model has four modules:

- `Geometry` (`Geometry.dfy`) holds the pure crop-frame arithmetic.
  - The eight handles of a frame (`Handles`), listed in the order nw, n, ne,
    e, se, s, sw, w. Handle names are the constructors of `HandleName`
    (`Nw`, `N`, `Ne`, `E`, `Se`, `S`, `Sw`, `W`) rather than strings.
  - The resize rule for a dragged handle (`Resize`).
  - Hit-testing a pointer-down against the handles first, then the frame body
    (`FirstNear`, `HitTest`).
  - The body-drag translation with its grab offset (`GrabOffset`, `Move`).
  - The mapping of the frame from canvas space into the image's intrinsic
    space (`SourceRect`).
  - Coordinates are exact `real`s.
- `History` (`History.dfy`) holds the undo/redo stacks as a value.
  - `Timeline<T>` holds the undo stack, the document on screen and the redo
    stack.
  - `Save`, `Commit`, `Undo` and `Redo` work on that value.
  - The reference model reads the three parts as one list of versions, oldest
    first, with a cursor on the current version (`Versions`, `Cursor`). Undo
    and redo move the cursor and keep the list. An edit cuts the list after
    the cursor and appends the new version. `VersionsDetermine` shows that the
    list and the cursor fix the timeline, so the round-trip properties follow
    from cursor arithmetic.
- `Editor` (`Editor.dfy`) holds the class `ImageEditor`.
  - Its fields are the component's state variables: `image`, `drawMode`,
    `isDrawing`, `lines`, `currentLine`, `drawingColor`, `brushSize`,
    `cropMode`, `cropFrame`, `isDraggingCrop`, `dragCropOffset`,
    `resizingCropHandle`, `history` and `redoStack`.
  - It has one method per handler. Each method runs to completion as a
    sequence of field updates. Its `modifies` clause names the fields it may
    change, and its `ensures` gives their new values in terms of the
    `Geometry` and `History` functions.
  - `Valid()` is the object invariant that every method keeps: draw mode and
    crop mode are never both on, crop mode always has a frame, and a stroke
    in progress holds at least one point.
- `Sessions` (`Sessions.dfy`) holds short client sessions. These are fresh
  editors driven through handler sequences. Each one checks from the methods'
  contracts alone what the editor promises, for example that a pointer-down
  followed by a pointer-up commits a one-point stroke.

An image is modelled as `ImageSrc(uri, width, height)`. The editor keeps an
image only through its source reference, and decoding a reference always gives
the same bitmap, so the intrinsic size is carried with the reference. A
snapshot is `Snapshot(lines, imageSrc)`. Pointer positions are canvas-space
`Point`s. The canvas wires pointer-leave to the same handler as pointer-up
(src/ImageEditor.jsx:442), so `MouseUp` models both events.

Behaviours of the code that the model keeps as written:

- Applying a crop without a frame or an image only shows a message and
  returns. `ApplyCrop` models this as returning `None` with no state change.
- The code commits a stroke on every pointer-up while drawing. It does not
  check whether the stroke is empty. The stroke always holds at least the
  pointer-down point, which the invariant `Valid()` states.
- Modes are two booleans, not one enumerated mode. Their exclusivity is the
  invariant `Valid()`.
- The upload guard `file.type.match('image.*')` is an unanchored pattern. It
  accepts any media type that contains "image" anywhere, for example
  `application/x-image`. `MatchesImagePattern` models it as written.

## Model

| member | source | states |
|---|---|---|
| `Geometry.Handles` | src/ImageEditor.jsx:161-173 | Returns exactly eight handles named nw, n, ne, e, se, s, sw, w in that order. Each handle lies on the side(s) its name drags, or midway between the other two sides. |
| `Geometry.Resize` | src/ImageEditor.jsx:245-284 | The dragged handle moves its side(s) to the pointer and the opposite sides stay fixed (for `nw` the right and bottom edges are kept, for `se` the origin is kept). |
| `Geometry.ResizeAtOwnHandle` | src/ImageEditor.jsx:245-284 | Dragging any of the eight handles to the point where it already sits leaves the frame unchanged. This ties the resize rule to the handle layout. |
| `Geometry.ResizeLastMoveWins` | src/ImageEditor.jsx:219-221 | Two successive resize moves with the same handle give the frame of the last pointer position alone. |
| `Geometry.ResizeMayInvert` | src/ImageEditor.jsx:266-269 | No clamping: dragging `Se` of the default frame above and left of its origin gives negative width and height. |
| `Geometry.ResizeExamples` | src/ImageEditor.jsx:248-269 | `se` to (300,320) turns {50,50,200,200} into {50,50,250,270}. `nw` to (80,90) gives {80,90,170,160}. |
| `Geometry.FirstNear` | src/ImageEditor.jsx:188-190 | Returns the index of the first handle with both distances to the pointer below 6, and no earlier handle is that close. Returns none exactly when no handle is that close. |
| `Geometry.HitTest` | src/ImageEditor.jsx:187-205 | A body grab means the pointer is strictly inside the frame, and a miss means it is not. Handle priority and the full case split are stated by `HitTestPriority`. |
| `Geometry.HitTestPriority` | src/ImageEditor.jsx:187-205 | Any handle within reach is grabbed, and it is the first in list order, even when the pointer is also inside the body. The body is grabbed only by a press strictly inside the frame that reaches no handle. Anything else misses. |
| `Geometry.HitDefaultSeCorner` | src/ImageEditor.jsx:187-193 | A press at (250,250) on the default frame grabs the `se` handle. |
| `Geometry.GrabOffset` | src/ImageEditor.jsx:202 | The frame origin plus the recorded offset is the pointer. |
| `Geometry.Move` | src/ImageEditor.jsx:223-228 | The dragged frame keeps its width and height, and the pointer keeps the grab offset from the frame origin. |
| `Geometry.DragKeepsPointerInside` | src/ImageEditor.jsx:195-228 | A frame dragged by a body grab, with the offset recorded at pointer-down, still strictly contains the pointer wherever it moves. Moving back to the grab point restores the frame. |
| `Geometry.SourceRect` | src/ImageEditor.jsx:139-144 | Each coordinate of the source rectangle is the frame's coordinate scaled by image size over canvas size (800 horizontally, 600 vertically). |
| `Geometry.SourceRectInsideImage` | src/ImageEditor.jsx:139-144 | A frame that lies on the canvas selects a rectangle inside the image. |
| `Geometry.SourceRectOfWholeCanvas` | src/ImageEditor.jsx:139-144 | The whole-canvas frame selects the whole image. |
| `Geometry.SourceRectExample` | src/ImageEditor.jsx:139-144 | A 1600×1200 image with frame {100,100,400,300} gives source rectangle {200,200,800,600}. |
| `History.VersionsDetermine` | src/ImageEditor.jsx:29-30 | The version list and the cursor determine the undo stack, the current document and the redo stack. |
| `History.Save` | src/ImageEditor.jsx:40-47 | The cursor moves forward by one, the old document is on top of the undo stack, the document on screen is kept and nothing is left to redo. The effect on the version list is stated by `SaveDropsFuture`. |
| `History.Commit` | src/ImageEditor.jsx:40-47 | An edit: the cursor moves forward by one, the old document is on top of the undo stack, the new document is on screen and nothing is left to redo. The effect on the version list is stated by `CommitDropsFuture`. |
| `History.Undo` | src/ImageEditor.jsx:50-67 | With an empty undo stack nothing changes. Otherwise the cursor moves back by one, the top of the undo stack comes back on screen and the replaced document is pushed on the redo stack. The version list is kept (`UndoStepsBack`). |
| `History.Redo` | src/ImageEditor.jsx:70-87 | With an empty redo stack nothing changes. Otherwise the cursor moves forward by one, the replaced document goes on top of the undo stack and the top of the redo stack comes back on screen. The version list is kept (`RedoStepsForward`). |
| `History.SaveDropsFuture` | src/ImageEditor.jsx:40-47 | A snapshot keeps every version up to the cursor, repeats the current one after it and drops every undone version. The cursor moves forward by one. |
| `History.CommitDropsFuture` | src/ImageEditor.jsx:40-47 | An edit (snapshot, then a new document) keeps the versions up to the cursor and appends the new document with the cursor on it. Nothing is left to redo. |
| `History.UndoStepsBack` | src/ImageEditor.jsx:50-67 | Undo with an empty undo stack changes nothing, redo stack included. Otherwise it moves the cursor back by one and keeps the versions. |
| `History.RedoStepsForward` | src/ImageEditor.jsx:70-87 | Redo with an empty redo stack changes nothing. Otherwise it moves the cursor forward by one and keeps the versions. |
| `History.UndoThenRedo` | src/ImageEditor.jsx:50-87 | With a non-empty undo stack, undo followed at once by redo restores the document and both stacks exactly. (With an empty undo stack, undo does nothing, and a redo that follows still steps forward when there is something to redo. The toolbar disables Undo in that state, src/ImageEditor.jsx:413.) |
| `History.RedoThenUndo` | src/ImageEditor.jsx:50-87 | With a non-empty redo stack, redo followed at once by undo restores the document and both stacks exactly. (The toolbar disables Redo when the redo stack is empty, src/ImageEditor.jsx:422.) |
| `History.UndoAfterCommit` | src/ImageEditor.jsx:40-67 | Undo right after an edit restores the document and undo stack from before the edit, and leaves only that edit to redo. |
| `History.EditAfterUndoClearsRedo` | src/ImageEditor.jsx:45-46 | An edit made after an undo leaves nothing to redo, so a redo then changes nothing. |
| `History.UndosMoveCursor` | src/ImageEditor.jsx:50-67 | k undos (k at most the undo depth) keep the version list and move the cursor back by k. |
| `History.RedosMoveCursor` | src/ImageEditor.jsx:70-87 | k redos (k at most the redo depth) keep the version list and move the cursor forward by k. |
| `History.CommitsExtend` | src/ImageEditor.jsx:40-47 | N edits cut the version list after the cursor and append the N new documents, with the cursor on the last one. |
| `History.UndosThenRedos` | src/ImageEditor.jsx:50-87 | Any k undos (k at most the undo depth) followed by k redos restore the timeline. |
| `History.EditsThenUndosThenRedos` | src/ImageEditor.jsx:40-87 | N edits followed by N undos bring back the document and undo stack from before the edits. N redos after that bring back the state after the edits. |
| `Editor.MatchesImagePattern` | src/ImageEditor.jsx:93 | Every accepted media type has at least five characters, and every type that starts with "image" is accepted. The exact accepted set is stated by `MatchesImagePatternIsContainment`. |
| `Editor.MatchesImagePatternIsContainment` | src/ImageEditor.jsx:93 | The upload guard holds exactly when "image" occurs somewhere in the media type. |
| `Editor.ImageTypesAccepted` | src/ImageEditor.jsx:93 | `image/png` passes the guard, and so does `application/x-image`. |
| `Editor.TextTypeRefused` | src/ImageEditor.jsx:93-96 | `text/plain` is refused by the guard. |
| `Editor.ImageEditor.constructor` | src/ImageEditor.jsx:10-31 | Initial state: no image, no strokes, empty stacks, both modes off, brush size 3, no frame, zero drag offset, no handle being dragged. |
| `Editor.ImageEditor.SaveState` | src/ImageEditor.jsx:40-47 | Pushes the current (lines, image) on the undo stack and empties the redo stack. No other field changes. |
| `Editor.ImageEditor.Undo` | src/ImageEditor.jsx:50-67 | The undo stack, the document and the redo stack become `History.Undo` of their old values. Only those fields change. |
| `Editor.ImageEditor.Redo` | src/ImageEditor.jsx:70-87 | The undo stack, the document and the redo stack become `History.Redo` of their old values. Only those fields change. |
| `Editor.ImageEditor.Upload` | src/ImageEditor.jsx:90-105 | No file, or a type the guard refuses, leaves history, redo stack, strokes and image unchanged. Otherwise it snapshots and then replaces the image by the file's. |
| `Editor.ImageEditor.ToggleDrawing` | src/ImageEditor.jsx:108-112 | Flips draw mode and always turns crop mode off. The crop frame is left as it was. |
| `Editor.ImageEditor.ToggleCrop` | src/ImageEditor.jsx:115-126 | Switching crop on installs {50,50,200,200} and turns draw mode off. Switching it off clears the frame. |
| `Editor.ImageEditor.ApplyCrop` | src/ImageEditor.jsx:129-158 | Without a frame or an image nothing changes and no snapshot is taken. Otherwise it snapshots, returns the frame scaled into image space, installs the cropped image, and clears crop mode and frame. |
| `Editor.ImageEditor.MouseDown` | src/ImageEditor.jsx:176-206 | In draw mode it starts a stroke at the pointer. In crop mode with a frame, a handle hit starts a resize, a body hit starts a drag and records the grab offset, and a miss changes nothing. |
| `Editor.ImageEditor.MouseMove` | src/ImageEditor.jsx:209-230 | The first case that applies wins. While drawing it appends the pointer to the stroke. While resizing it applies `Resize` with the pointer. While dragging it applies `Move` with the recorded offset. Otherwise nothing changes. |
| `Editor.ImageEditor.MouseUp` | src/ImageEditor.jsx:233-242 | While drawing it snapshots, appends exactly one stroke (points, colour, brush size) holding at least one point, and clears the stroke in progress and the drawing flag. It always ends a crop drag and a resize. |
| `Sessions.DotStroke` | src/ImageEditor.jsx:181-184 | Pointer-down then pointer-up with no move in draw mode commits a one-point stroke and one snapshot. |
| `Sessions.StrokeUndoRedo` | src/ImageEditor.jsx:50-87 | After a committed stroke, undo removes it and redo brings it back, leaving the redo stack empty. |
| `Sessions.CropDefaultFrame` | src/ImageEditor.jsx:129-157 | Uploading a 1600×1200 image file that passes the guard, switching crop on and applying takes source rectangle {100,100,400,400}. The cropped image is installed, two snapshots are taken and crop mode ends. |
| `Sessions.DragCrop` | src/ImageEditor.jsx:195-228 | A body press on the default frame followed by a move translates the frame without resizing it, with the pointer still inside. |
| `Sessions.PressOutsideFrame` | src/ImageEditor.jsx:187-205 | A press that hits neither handle nor body, then a move, leaves the frame where it was. |
| `Sessions.DrawToggleKeepsFrame` | src/ImageEditor.jsx:108-112 | Turning draw mode on while cropping turns crop mode off but keeps the frame. |
| `Sessions.CropWithoutImage` | src/ImageEditor.jsx:129-133 | Applying a crop with no image returns nothing, takes no snapshot and stays in crop mode. |
| `Sessions.RejectFile` | src/ImageEditor.jsx:93-96 | A file whose media type the guard refuses leaves the editor with no image and no snapshot. |

## Left out

- Geometry.Resize: the source's `switch` on the handle name returns the frame unchanged for any string other than the eight names. The model names handles by the datatype `HandleName`, so there is no unknown name. Every name that reaches the resize code comes from the handle list, so that branch never runs in the source.
- Rendering: the redraw effect (src/ImageEditor.jsx:286-346) and all JSX. They are canvas drawing calls with no state logic.
- Image decoding is asynchronous in the source (`new Image()`, `onload`, `URL.createObjectURL`, `toDataURL`). The model sets the image synchronously, at the point where its `onload` would fire. A decode that never completes, or that completes out of order, is not modelled.
- `Editor.ImageEditor.ApplyCrop`: the pixel resampling through an offscreen canvas is a foreign call. The model computes only the source rectangle, and the resulting bitmap is the parameter `cropped`. The model does not state that its size is the frame's width × height.
- `Editor.ImageEditor.Undo` and `Editor.ImageEditor.Redo` restore `None` only for a snapshot without an image. The source tests the reference for truthiness, which would also drop an empty source string. Object URLs and data URLs are never empty, so the two agree.
- Notifications (`showNotification` with its 3-second `setTimeout`) are timer-driven display text and are not modelled.
- The conversion from client to canvas coordinates (`getBoundingClientRect`) is DOM plumbing. The handlers take canvas-space points.
- The colour picker and brush-size slider are JSX `onChange` setters. The colour palette lives in src/constants/colors.js, which is not part of this model. The initial colour is a constructor parameter and `brushSize` starts at 3. No handler in the model changes either value.
- React's deferred, batched state updates and stale closures are not modelled. Each handler is a sequence of immediate field updates.
- Floating point: coordinates are exact reals, where the source computes in IEEE doubles.
- src/components/Button.jsx, FileUpload.jsx, Box.jsx, Heading.jsx and src/App.jsx are presentational and not part of this model.
