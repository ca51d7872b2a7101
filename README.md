# touchvg editor core — a Dafny model

This project models five sequential pieces of the touchvg vector-graphics
editor core and proves properties of them:

- **The spline/freehand drawing command** `MgCmdDrawSplines`
  (`draw_splines.dfy`, module `DrawSplines`). It is a class with the fields
  `step` (`m_step`) and `freehand` (`m_freehand`) and the dynamic shape's
  point buffer. Each gesture callback (touch began/moved/ended, click,
  double click, cancel, undo) is a method. Its contract states the new step,
  the new mode, the new point sequence, and the document effects it requests.
  Those effects are "add the spline", "add a line" and "clear soon", and each
  is appended to a ghost log. Calls into the `MgCommandDraw` base class come
  back as a `Delegate` reply naming the base call.
  The class invariant is that during a stroke the buffer holds exactly
  `step + 1` points, so `step` always indexes an existing point.
- **Shape point storage** from `mgbasicsp.h` (`basic_shapes.dfy`, module
  `Shapes`):
  - the two-point `MgLine`;
  - `MgBaseRect`'s square flag;
  - the growable `MgBaseLines` vertex buffer (an `array` with `count` and
    `maxCount`; resize, add, insert and remove shift elements in place);
  - the derived queries of `MgParallelogram`;
  - the run-time type tags.
- **GiColor** (`gicolor.dfy`, module `Colors`): a class with four byte
  channels, the 32-bit ARGB packing (`bv32`) and its inverse, the two
  `set` overloads, and the validity and equality predicates.
- **MgStorage's width wrappers** (`storage.dfy`, module `Storage`, with
  the fixed-width integer types and casts in `ints.dfy`). The narrow
  readers are readInt plus a truncating cast, and the writers forward to
  writeInt. The node begin/end protocol of `readNode`/`writeNode` is
  modelled as a replay of call sequences over a stack of open nodes.
- **The GDI+ backend's decision logic** (modules `GdipPath` in
  `gdip_path.dfy` and `CanvasGdip` in `canvas_gdip.dfy`):
  - the path-type decoder `addPolyToPath`, proved against a recursive
    reference decoder, which in turn is proved to invert an encoder;
  - the Bezier grouping of `rawBezierTo`;
  - the pen and brush cache of `createPen`/`createBrush`;
  - the negative-size normalisation of `rawRect`/`rawEllipse`;
  - the argument guard of `rawPath`.

  A GDI+ path is a sequence of path records, and every drawing call is
  recorded in a ghost output sequence.

Geometry (`geometry.dfy`, module `Geometry`) uses exact reals and
squared distances. The floating-point conversions are function-valued
parameters: millimetres to model units, display to model coordinates,
pen width and colour. So are the view's veto and the context's null-line
and fill tests.

## Model

| member | source | states |
|---|---|---|
| DrawSplines.MgCmdDrawSplines.constructor | core/src/shape/mgdrawsplines.cpp:10-12 | a new command is in freehand mode with step 0, an empty point buffer and nothing logged |
| DrawSplines.MgCmdDrawSplines.CanAddPoint | core/src/shape/mgdrawsplines.cpp:126-137 | a point may be added only in freehand mode or at the end of a touch; with no stroke in progress that is also enough |
| DrawSplines.MgCmdDrawSplines.TouchBegan | core/src/shape/mgdrawsplines.cpp:48-71 | in click mode during a stroke: step grows by one, the touch point is appended, nothing else changes, and the base `_touchMoved` follows; otherwise: the stroke restarts as exactly `[startPointM, pointM]` with step 1, freehand becomes `!pressDrag`, and the base `_touchBegan` follows; the buffer invariant is kept |
| DrawSplines.MgCmdDrawSplines.TouchMoved | core/src/shape/mgdrawsplines.cpp:73-87 | the point at index step becomes `pointM`; when step > 0 and canAddPoint holds, one copy of `pointM` is appended and step grows by one; no other point changes, and the mode and log are unchanged |
| DrawSplines.MgCmdDrawSplines.FreehandClick | core/src/shape/mgdrawsplines.cpp:141-160 | the log grows by a line from `startPointM` to the (possibly nudged) end point exactly when the view accepts it; step and mode are unchanged |
| DrawSplines.MgCmdDrawSplines.Click | core/src/shape/mgdrawsplines.cpp:139-163 | freehand: the line of FreehandClick is offered and true is returned; click mode: MgCommandDraw's click is called and nothing is logged |
| DrawSplines.MgCmdDrawSplines.TouchEnded | core/src/shape/mgdrawsplines.cpp:89-104 | freehand with step > 1: the whole spline is committed and then cleared later; freehand with step <= 1: the click's line is offered and then cleared later; click mode: nothing is logged; the base `_touchEnded` always follows |
| DrawSplines.MgCmdDrawSplines.DoubleClick | core/src/shape/mgdrawsplines.cpp:106-116 | click mode: the spline is committed iff step > 1, a delayed clear is always logged, and true is returned; freehand: acts as click, logging exactly the click's line (if the veto lets it through) and returning true |
| DrawSplines.MgCmdDrawSplines.Cancel | core/src/shape/mgdrawsplines.cpp:118-124 | the spline is committed iff the mode is click and step > 1, before MgCommandDraw's cancel |
| DrawSplines.MgCmdDrawSplines.Undo | core/src/shape/mgdrawsplines.cpp:23-32 | enableRecall is the freehand flag; only when step > 1 is exactly one point removed (index step-1 in freehand mode, index step in click mode) and step stepped back; otherwise the points are unchanged |
| DrawSplines.UndoKeepsStroke | core/src/shape/mgdrawsplines.cpp:25-28 | the point that undo removes leaves the first vertex; freehand keeps the committed vertices but the last plus the dynamic point; click mode keeps exactly the committed vertices |
| DrawSplines.RemoveAt | core/src/shape/mgdrawsplines.cpp:27 | removing one index shortens the points by one and shifts only the later points down |
| DrawSplines.UndoIndex | core/src/shape/mgdrawsplines.cpp:27 | the index undo removes is step - 1 or step, and it is step exactly in click mode |
| DrawSplines.ClickEnd | core/src/shape/mgdrawsplines.cpp:148-150 | the end of a freehand click's line: the touch point, or the touch nudged by one display unit on each axis when it moved less than one unit; its use is stated by FreehandClick |
| DrawSplines.ClickLine | core/src/shape/mgdrawsplines.cpp:152-156 | a freehand click logs at most one event, and logs one exactly when the view accepts the line; that event is the line from the drag's start to ClickEnd |
| DrawSplines.EndedAdmitsMore | core/src/shape/mgdrawsplines.cpp:126-137 | click mode never adds a point on a move; a point that may be added on a move may also be added when the touch ends, given that 0.2 mm maps to no more than 0.5 mm |
| Shapes.TypeTag | core/include/shape/mgbasicsp.h:16 | every concrete shape class has a tag between 10 and 17 |
| Shapes.BaseType | core/include/shape/mgbasicsp.h:53 | a shape's base kind is 4 exactly for MgRect, MgEllipse, MgRoundRect and MgDiamond, 5 exactly for MgLines and MgSplines, and none for MgLine and MgParallelogram |
| Shapes.KindOfTag | core/include/shape/mgbasicsp.h:283 | a number names a concrete shape class iff it lies in 10..17 |
| Shapes.TypeTagsIdentifyClasses | core/include/shape/mgbasicsp.h:121 | tags and classes are in one-to-one correspondence, and no tag equals a base kind |
| Shapes.MgLine.constructor | core/include/shape/mgbasicsp.h:42 | a line owns exactly two points |
| Shapes.MgLine.Center | core/include/shape/mgbasicsp.h:25 | the centre is equally far from the start and end in each coordinate |
| Shapes.MgLine.SqLength | core/include/shape/mgbasicsp.h:28 | the squared length is non-negative and is 0 for coinciding endpoints |
| Shapes.MgLine.SetStartPoint | core/include/shape/mgbasicsp.h:31 | point 0 becomes the argument and point 1 is unchanged |
| Shapes.MgLine.SetEndPoint | core/include/shape/mgbasicsp.h:34 | point 1 becomes the argument and point 0 is unchanged |
| Shapes.MgLine.StartPoint | core/include/shape/mgbasicsp.h:19 | the accessor of point 0, which SetStartPoint's contract and FreehandClick use |
| Shapes.MgLine.EndPoint | core/include/shape/mgbasicsp.h:22 | the accessor of point 1, which SetEndPoint's contract and FreehandClick use |
| Shapes.MgBaseRect.SetSquare | core/include/shape/mgbasicsp.h:90 | the square flag becomes the argument |
| Shapes.MgBaseLines.constructor | core/include/shape/mgbasicsp.h:244-246 | a new buffer is empty and open, and its count is within capacity |
| Shapes.MgBaseLines.Contents | core/include/shape/mgbasicsp.h:244-246 | the live vertices are exactly `count` many |
| Shapes.MgBaseLines.SetClosed | core/include/shape/mgbasicsp.h:208 | the closed flag becomes the argument; the vertices are unchanged |
| Shapes.MgBaseLines.GetPoint | core/include/shape/mgbasicsp.h:244-246 | vertex i is element i of the live vertices |
| Shapes.MgBaseLines.EndPoint | core/include/shape/mgbasicsp.h:211 | the end point is the last live vertex when there is one |
| Shapes.MgBaseLines.SetPoint | core/include/shape/mgbasicsp.h:244-246 | exactly vertex i is replaced |
| Shapes.MgBaseLines.Resize | core/include/shape/mgbasicsp.h:214 | the count becomes the argument, the common prefix of vertices is kept, and capacity still bounds the count |
| Shapes.MgBaseLines.AddPoint | core/include/shape/mgbasicsp.h:217 | the point is appended and becomes the end point |
| Shapes.MgBaseLines.InsertPoint | core/include/shape/mgbasicsp.h:220 | it succeeds iff the segment index names an existing segment; the point then goes after that segment's first vertex, and the other vertices keep their order; on failure nothing changes |
| Shapes.MgBaseLines.RemovePoint | core/include/shape/mgbasicsp.h:223 | it succeeds iff the index is below the count; exactly that vertex is then removed, and the others keep their order; on failure nothing changes |
| Shapes.MgParallelogram.GetCenter | core/include/shape/mgbasicsp.h:286 | the centre is the midpoint of points 0 and 2 |
| Shapes.MgParallelogram.SqWidth | core/include/shape/mgbasicsp.h:292 | the squared width (corner 0 to corner 1) is non-negative and 0 when the corners coincide |
| Shapes.MgParallelogram.SqHeight | core/include/shape/mgbasicsp.h:295 | the squared height (corner 2 to corner 1) is non-negative and 0 when the corners coincide |
| Shapes.IsEmptyBySides | core/include/shape/mgbasicsp.h:292-299 | isEmpty(minDist) holds iff minDist is non-negative and the shorter of the sides p0p1 and p2p1 is no longer than minDist |
| Shapes.IsEmptyMonotone | core/include/shape/mgbasicsp.h:298-299 | emptiness persists as minDist grows, and a degenerate parallelogram is empty for every non-negative minDist |
| Geometry.Midpoint | core/include/shape/mgbasicsp.h:25 | the midpoint is equally far from both points in each coordinate |
| Geometry.SqDistProperties | core/include/shape/mgbasicsp.h:28 | the squared distance is non-negative and symmetric, and is 0 between equal points |
| Geometry.WithinDistMonotone | core/include/shape/mgbasicsp.h:298-299 | being within d1 implies being within any d2 >= d1 |
| Geometry.CloserThanMonotone | core/src/shape/mgdrawsplines.cpp:131-132 | being closer than d1 implies being closer than any d2 >= d1 |
| Colors.Pack | core/include/graph/gicolor.h:40-43 | alpha, red, green and blue occupy bits 24-31, 16-23, 8-15 and 0-7 |
| Colors.UnpackPack | core/include/graph/gicolor.h:40-51 | unpacking a packed colour gives back each channel |
| Colors.PackUnpack | core/include/graph/gicolor.h:40-51 | packing the unpacked channels of any 32-bit value gives back the value |
| Colors.PackInjective | core/include/graph/gicolor.h:40-43 | two packings are equal iff all four channels are |
| Colors.GiColor.Default | core/include/graph/gicolor.h:23-25 | the default colour is opaque black |
| Colors.GiColor.constructor | core/include/graph/gicolor.h:27-30 | the channels are the arguments, and alpha is 255 when omitted |
| Colors.GiColor.Copy | core/include/graph/gicolor.h:32-34 | the copy has the source's four channels |
| Colors.GiColor.White | core/include/graph/gicolor.h:36 | white is 255/255/255, opaque |
| Colors.GiColor.Black | core/include/graph/gicolor.h:37 | black is 0/0/0, opaque |
| Colors.GiColor.Invalid | core/include/graph/gicolor.h:38 | the invalid colour satisfies isInvalid |
| Colors.GiColor.GetARGB | core/include/graph/gicolor.h:40-43 | each channel sits in its byte of the packed value, whose sign bit is set iff alpha >= 128 (so the `int` is negative) |
| Colors.GiColor.SetARGB | core/include/graph/gicolor.h:45-51 | each channel is taken from its byte of the value, and getARGB then returns the value |
| Colors.GiColor.Set | core/include/graph/gicolor.h:53-59 | r, g and b become the arguments; a non-zero alpha is kept and alpha 0 becomes 255 |
| Colors.GiColor.SetWithAlpha | core/include/graph/gicolor.h:61-67 | the four channels become exactly the arguments |
| Colors.InvalidIffZeroARGB | core/include/graph/gicolor.h:69-72 | isInvalid holds iff all four channels are 0, that is iff the packed value is 0 |
| Colors.EqualsIffSameARGB | core/include/graph/gicolor.h:74-88 | equals (and `==`) holds iff the packed values agree, and `!=` iff they differ |
| Colors.EqualsIsEquivalence | core/include/graph/gicolor.h:74-77 | componentwise equality is reflexive, symmetric and transitive |
| Colors.ARGBRoundTrip | core/include/graph/gicolor.h:40-51 | `setARGB(getARGB())` restores all four channels |
| Ints.ToInt8 | core/include/shape/mgstorage.h:27-28 | the cast to Int8 keeps the value modulo 2^8 |
| Ints.ToInt16 | core/include/shape/mgstorage.h:30-31 | the cast to Int16 keeps the value modulo 2^16 |
| Ints.ToInt32 | core/include/shape/mgstorage.h:75 | the conversion to `int` keeps the value modulo 2^32 |
| Ints.ToUInt8 | core/include/shape/mgstorage.h:36-37 | the cast to UInt8 keeps the value modulo 2^8 |
| Ints.ToUInt16 | core/include/shape/mgstorage.h:39-40 | the cast to UInt16 keeps the value modulo 2^16 |
| Ints.ToUInt32 | core/include/shape/mgstorage.h:42-43 | the conversion to UInt32 keeps the value modulo 2^32 |
| Ints.NarrowingKeepsFittingValues | core/include/shape/mgstorage.h:27-43 | every cast is the identity on values that fit the target width |
| Ints.UInt32RoundTrip | core/include/shape/mgstorage.h:42-43 | an unsigned 32-bit value survives the trip through `int` |
| Storage.ReadInt8 | core/include/shape/mgstorage.h:27-28 | the result is readInt's value truncated to 8 bits |
| Storage.DefaultReadInt | core/include/shape/mgstorage.h:89 | the interface's own readInt returns the default, whether a name is given or not |
| Storage.DefaultWriteInt | core/include/shape/mgstorage.h:91 | the interface's own writeInt leaves the backend as it was |
| Storage.ReadInt16 | core/include/shape/mgstorage.h:30-31 | the result is readInt's value truncated to 16 bits |
| Storage.ReadInt32 | core/include/shape/mgstorage.h:33-34 | readInt's value as it is; ReadInt32And32Unsigned states the identity |
| Storage.ReadUInt8 | core/include/shape/mgstorage.h:36-37 | the result is readInt's value reduced to its low 8 bits |
| Storage.ReadUInt16 | core/include/shape/mgstorage.h:39-40 | the result is readInt's value reduced to its low 16 bits |
| Storage.ReadUInt32 | core/include/shape/mgstorage.h:42-43 | the result is readInt's value reinterpreted as unsigned 32 bits |
| Storage.WriteInt8 | core/include/shape/mgstorage.h:65 | the value goes to writeInt unchanged; WidthRoundTrip and DefaultWritersHaveNoEffect state what that means for a backend |
| Storage.WriteInt16 | core/include/shape/mgstorage.h:67 | the value goes to writeInt unchanged (see WidthRoundTrip) |
| Storage.WriteInt32 | core/include/shape/mgstorage.h:69 | the value goes to writeInt unchanged (see WidthRoundTrip) |
| Storage.WriteUInt8 | core/include/shape/mgstorage.h:71 | the value goes to writeInt unchanged (see WidthRoundTrip) |
| Storage.WriteUInt16 | core/include/shape/mgstorage.h:73 | the value goes to writeInt unchanged (see WidthRoundTrip) |
| Storage.WriteUInt32 | core/include/shape/mgstorage.h:75 | the value goes to writeInt converted to a signed 32-bit int, which WidthRoundTrip and UInt32RoundTrip show loses nothing |
| Storage.ReadInt32And32Unsigned | core/include/shape/mgstorage.h:33-34 | readInt32 returns readInt's value unchanged; readUInt32 returns it, plus 2^32 when it is negative |
| Storage.DefaultReadersReturnDefaults | core/include/shape/mgstorage.h:89 | with the default readInt every reader returns its own default exactly |
| Storage.DefaultWritersHaveNoEffect | core/include/shape/mgstorage.h:65-75 | with the default writeInt (line 91) no writer changes the backend |
| Storage.WidthRoundTrip | core/include/shape/mgstorage.h:65-75 | over a backend that reads back what it stored, a value written by any width-specific writer is read back in its own width, whatever the default |
| Storage.NarrowReaderTruncates | core/include/shape/mgstorage.h:27-37 | a narrow reader does not read back a wider value: 300 read as UInt8 is 44, and 200 read as Int8 is -56 |
| Storage.KeyOf | core/include/shape/mgstorage.h:20 | an index below 0 names the only child of that name; otherwise it selects one of several same-named siblings |
| Storage.WriteNode | core/include/shape/mgstorage.h:56-62 | a node is written as a begin call (ended=false), then exactly the body, then an end call (ended=true) |
| Storage.FieldCalls | core/include/shape/mgstorage.h:64-75 | one field access per written field, in order |
| Storage.ReplayAppend | core/include/shape/mgstorage.h:18-24 | replaying two call sequences in turn equals replaying their concatenation |
| Storage.ReplayUnderEnclosing | core/include/shape/mgstorage.h:18-24 | a call sequence valid on its own stays valid inside enclosing open nodes |
| Storage.FieldsKeepOpenNodes | core/include/shape/mgstorage.h:18-24 | field accesses inside an open node leave the open nodes unchanged |
| Storage.FieldNodeWellBracketed | core/include/shape/mgstorage.h:56-62 | a node of fields with its begin and end calls is well bracketed, and without its end call it is not |
| Storage.NestingWellBracketed | core/include/shape/mgstorage.h:18-24 | a well-bracketed child inside a node, and two well-bracketed sequences one after the other, are well bracketed |
| GdipPath.Points | win32/src/graphwin/canvasgdip.cpp:821-823 | an encoded path has one type byte per point |
| GdipPath.DecodeEncoded | win32/src/graphwin/canvasgdip.cpp:821-868 | decoding the point and type arrays of any sequence of move, line and bezier segments succeeds and yields that sequence's records (the round trip) |
| GdipPath.BezierNeedsTriplet | win32/src/graphwin/canvasgdip.cpp:843-848 | a bezier-to element is accepted iff two more bezier-to elements follow it; otherwise, without a close flag, decoding reports failure |
| GdipPath.CloseFlagMasksBrokenBezier | win32/src/graphwin/canvasgdip.cpp:843-857 | a broken bezier whose type carries the close flag has its failure overwritten by the close: decoding goes on and reports success |
| GdipPath.DecodeAt | win32/src/graphwin/canvasgdip.cpp:830-860 | one step of the decoder: what a move-to, line-to, accepted or rejected bezier-to, and the close flag each contribute, and where decoding resumes |
| GdipPath.AddPolyToPath | win32/src/graphwin/canvasgdip.cpp:821-868 | the loop (with its `i += 2` skips, current point and result flag) appends exactly the reference decoding to the path, stops at the first failure, and returns the decoder's result |
| GdipPath.AddPolyElement | win32/src/graphwin/canvasgdip.cpp:827-864 | one pass of the loop over element i moves the index past the elements it used: three for an accepted bezier, which leaves the current point at its third point, and one otherwise; a move-to or line-to makes its own point current, and a broken bezier or another type keeps the current point; when it reports success, what it appended plus the decoding from the new index, point and path is still the final result; when it reports failure, the path is the final one |
| GdipPath.ThenComposes | win32/src/graphwin/canvasgdip.cpp:821-868 | appending records in two steps equals appending them at once |
| GdipPath.HasPointsAppend | win32/src/graphwin/canvasgdip.cpp:830-834 | starting or closing a figure does not change whether the path has points |
| GdipPath.BezierGroupsShape | win32/src/graphwin/canvasgdip.cpp:756-767 | there are `count / 3` segments; the first starts at the path's last point, and segment k starts at the third control point of segment k-1 |
| GdipPath.BezierGroupsIgnoreTail | win32/src/graphwin/canvasgdip.cpp:756-767 | one or two trailing points are ignored |
| GdipPath.AppendBeziers | win32/src/graphwin/canvasgdip.cpp:756-767 | the loop appends exactly the Bezier groups that start at the path's last point |
| CanvasGdip.WithAlpha | win32/src/graphwin/canvasgdip.cpp:75-76 | the colour keeps its red, green and blue and takes the given alpha |
| CanvasGdip.WithLine | win32/src/graphwin/canvasgdip.cpp:62-65 | after a pen rebuild the cache's four line attributes match the request, and its fill attributes are unchanged |
| CanvasGdip.WithFill | win32/src/graphwin/canvasgdip.cpp:109-110 | after a brush rebuild the cache's fill colour and alpha match the request, and its line attributes are unchanged |
| CanvasGdip.NewPen | win32/src/graphwin/canvasgdip.cpp:73-80 | a new pen takes the request's line alpha, the red, green and blue of the graphics' pen colour, the graphics' pen width, and the request's line style as dash style |
| CanvasGdip.NewBrush | win32/src/graphwin/canvasgdip.cpp:118-121 | a new brush takes the request's fill alpha and the red, green and blue of the graphics' pen colour for the fill colour |
| CanvasGdip.CacheUpdatesCommute | win32/src/graphwin/canvasgdip.cpp:56-110 | a pen rebuild and a brush rebuild touch disjoint cache attributes, so their order does not matter and both requests stay matched |
| CanvasGdip.GdipDrawImpl.constructor | win32/src/graphwin/canvasgdip.cpp:145-151 | a new backend has no cached pen or brush, no path, and starts with brushNull set and penNull cleared |
| CanvasGdip.GdipDrawImpl.CreatePen | win32/src/graphwin/canvasgdip.cpp:46-93 | with a null context the cached one is used; a null line gives no pen and sets penNull; a cached pen whose four line attributes match is reused untouched; otherwise the pen is rebuilt and the cache takes the request's line attributes |
| CanvasGdip.GdipDrawImpl.CreateBrush | win32/src/graphwin/canvasgdip.cpp:95-127 | no fill colour gives no brush and sets brushNull; a cached brush whose fill colour and alpha match is reused; otherwise the brush is rebuilt and the cache takes the request's fill attributes |
| CanvasGdip.Normalize | win32/src/graphwin/canvasgdip.cpp:626-637 | the normalised rectangle has non-negative sizes of the same magnitude and covers the same span, with its origin moved to the smaller corner |
| CanvasGdip.NormalizeIdempotent | win32/src/graphwin/canvasgdip.cpp:626-646 | normalising twice equals normalising once, and both sizes are positive after normalising iff neither was 0 before |
| CanvasGdip.GiCanvasGdip.constructor | win32/src/graphwin/canvasgdip.cpp:201-204 | a new canvas has a fresh backend (built as at lines 145-151) with no pen, brush or path, penNull cleared, brushNull set, and nothing drawn |
| CanvasGdip.GiCanvasGdip.RawRect | win32/src/graphwin/canvasgdip.cpp:619-649 | the rectangle is normalised; it is filled with the brush and then outlined with the pen that exist; the result is true iff there is a pen or a brush and neither size is 0; a pen exists iff the line of the request (the cached context when none is given) is not null and a brush iff it has a fill colour, and each one used is the cached one, whose attributes then match the request: the old cached pen (brush) when it existed and matched the request, otherwise the NewPen (NewBrush) built from the request; the cache's line attributes are kept when the line is null, and its fill attributes when there is no fill colour |
| CanvasGdip.GiCanvasGdip.RawEllipse | win32/src/graphwin/canvasgdip.cpp:651-679 | the same as rawRect, for an ellipse, including which pen and brush are used (the old cached one on a match, otherwise the one built from the request), what the cache holds afterwards and which cached attributes are kept |
| CanvasGdip.GiCanvasGdip.RawBezierTo | win32/src/graphwin/canvasgdip.cpp:748-771 | with an open path it appends exactly the Bezier groups from the path's last point and returns true; without a path it changes nothing and returns false |
| CanvasGdip.GiCanvasGdip.RawPath | win32/src/graphwin/canvasgdip.cpp:784-819 | null arrays or fewer than 2 points give false and draw nothing; otherwise the arrays are decoded, and when that succeeds the path is filled with the brush and drawn with the pen that exist for the request, which is the cached context (getCurrentContext) when none is given; the result is the decoder's; a refused or failed call leaves the cached pen, brush and both null flags as they were; with no fill colour createBrush is not called, so the brush, brushNull and the fill attributes are kept; after a success penNull tells whether the line is null, and the pen (brush) drawn with is the old cached one when it existed and matched the request, otherwise the NewPen (NewBrush) built from it |

## Left out

- Floating point: every coordinate, size and pen width is a Dafny `real`, so float rounding, NaN and infinities are not modelled, for example in Normalize's sign tests and RawRect's zero-size test. Distances are squared reals, so `distanceTo` and `sqrt` are not modelled. `mgDisplayMmToModel`, `displayToModel`, `calcPenWidth` and `calcPenColor` are function-valued parameters, and their float rounding is not modelled.
- `MgCmdDrawSplines::draw` (the visual feedback of a click-mode stroke) and `initialize` are not modelled, and neither is `update()` on shapes: they only render or recompute cached bounds.
- `_touchBegan`, `_touchMoved`, `_touchEnded`, `MgCommandDraw::click` and `MgCommandDraw::cancel` are returned as `Delegate` replies, and their own effects are not modelled. `_addshape` and `_delayClear` are events in a ghost log, and `shapeWillAdded` is a veto oracle. The base classes are not part of this model.
- DrawSplines.MgCmdDrawSplines.Undo: `MgCommandDraw::_undo` is not part of this model. Undo assumes that it steps `m_step` back by one, and reports this, exactly when `m_step > 1`. Without that, even the freehand undo would leave `m_step` past the last point.
- DrawSplines.MgCmdDrawSplines.TouchMoved: it requires `step < count`. `touchMoved` calls `setPoint(m_step, …)` with no guard at the call site (mgdrawsplines.cpp:77). What `setPoint` does with an index at or past the count is not visible, because its body is in mgbasicsp.cpp, which is not part of this model. The precondition holds whenever `touchBegan` came first.
- DrawSplines.MgCmdDrawSplines.FreehandClick: the copy of the view's current context into the line is not modelled. The line is recorded by its two points only.
- MgBaseLines bodies: `mgbasicsp.cpp` is not part of this model. resize, addPoint, insertPoint, removePoint and endPoint follow the header's declarations and comments. Shapes.MgBaseLines.Resize grows the capacity to exactly the requested count, because the growth policy is not visible. Allocation never fails, so resize and addPoint always return true.
- Shapes.MgLine and Shapes.MgParallelogram: lengths and isEmpty compare squared distances, because the float `distanceTo` is not modelled. The `<=` comparisons against minDist are equivalent for non-negative minDist.
- The shape behaviours whose bodies are not visible are not modelled: hit testing, transforms, handle editing, save/load, spline smoothing and knot vectors.
- `readBool`, `readFloat`, `readFloatArray`, `readString` and their writers are pure virtual, with no body to model. The null-buffer count convention of `readFloatArray`/`readString` is therefore not stated.
- The backend's readInt/writeInt, virtual in the source, are function-valued parameters.
- GiContext internals: `gicontext.h` is not part of this model. `isNullLine` and `hasFillColor` are oracles, and the line style constant `kGiLineSolid` is taken to be 0.
- Path type constants: `gigraph.h` is not part of this model. These values are taken: close flag 1, line-to 2, bezier-to 4, move-to 6 (the Windows path-point values). The element kind is the type with bits 1-2 kept (`type & 6`).
- CanvasGdip.GiCanvasGdip.RawRect: the `mgRound` of the coordinates is not modelled.
- CanvasGdip.GdipDrawImpl.CreatePen: the smoothing-mode switch of `TempGdipPen` (lines 521-552) is only reported as the returned `notSmoothing` flag. The mode change on the graphics object is not modelled.
- Every GDI+ call returns `Ok`, as the drawing methods assume. Out-of-memory failures of `new Pen`/`new Brush` are not modelled.
- The rest of `canvasgdip.cpp` is resource plumbing, bitmap caching, image scaling, clipping and anti-alias mode, and is not modelled. The same holds for the other raw drawing calls, `GiCanvasEx.java`, `SCCalloutView.h` and `mgcmderase.h` (declarations only).
- The GDI+ startup reference count (`InterlockedIncrement`) is cross-instance concurrency, and is not modelled.
