/** The spline drawing command MgCmdDrawSplines (core/src/shape/mgdrawsplines.cpp).
    It grows a dynamic MgSplines shape point by point, in one of two modes:
    freehand (a drag; points are sampled as the finger moves) and click mode
    (press-and-drag started the stroke; each new touch commits a vertex).
    While a stroke is in progress (`step > 0`) the shape holds step + 1
    points: the committed vertices 0 .. step-1 and, at index `step`, the
    dynamic point that follows the finger. */
module DrawSplines {
  import opened Geometry
  import opened Shapes

  /** The parts of MgMotion the command reads.  Points with an `M` suffix are
      in model coordinates, the others in display coordinates.  The view's
      conversions become functions: `mmToModel` is mgDisplayMmToModel,
      `displayToModel` the view's display-to-model transform, and `willAdd`
      the view's shapeWillAdded veto on a line from the first to the second point. */
  datatype Motion = Motion(
    point: Point2d, startPoint: Point2d,
    pointM: Point2d, startPointM: Point2d,
    pressDrag: bool,
    mmToModel: real -> real,
    displayToModel: Point2d -> Point2d,
    willAdd: (Point2d, Point2d) -> bool)

  /** The MgCommandDraw helpers a handler ends by calling; their result is
      the handler's result. */
  datatype BaseCall = BaseTouchBegan | BaseTouchMoved | BaseTouchEnded | BaseClick | BaseCancel

  /** What a handler returns: a value of its own, or whatever the named
      MgCommandDraw helper returns. */
  datatype Reply = Returns(value: bool) | Delegate(to: BaseCall)

  /** The effects on the document the command requests: `_addshape` of the
      dynamic spline (with its points), `_addshape` of a freehand click's
      line, and `_delayClear`. */
  datatype CmdEvent = AddSplines(points: seq<Point2d>) | AddLine(start: Point2d, end: Point2d) | DelayClear

  /** The sequence without its element at index i. */
  function RemoveAt<T>(s: seq<T>, i: nat): (r: seq<T>)
    requires i < |s|
    ensures |r| == |s| - 1
    ensures forall j :: 0 <= j < i ==> r[j] == s[j]
    ensures forall j :: i <= j < |r| ==> r[j] == s[j + 1]
  {
    s[..i] + s[i + 1..]
  }

  /** The vertex undo removes while more than one vertex is committed: in
      freehand mode the last committed one (the dynamic point stays), in
      click mode the dynamic point itself. */
  function UndoIndex(freehand: bool, step: nat): (k: nat)
    requires step > 0
    ensures step - 1 <= k <= step
    ensures k == step <==> !freehand
  {
    if freehand then step - 1 else step
  }

  /** What undo leaves of a stroke of step + 1 points: in freehand mode the
      committed vertices but the last, then the dynamic point; in click
      mode the committed vertices.  Either way one point fewer, with the
      first vertex kept. */
  lemma UndoKeepsStroke(pts: seq<Point2d>, freehand: bool, step: nat)
    requires step > 1 && |pts| == step + 1
    ensures var r := RemoveAt(pts, UndoIndex(freehand, step));
      |r| == step && r[0] == pts[0] &&
      (freehand ==> r == pts[..step - 1] + [pts[step]]) &&
      (!freehand ==> r == pts[..step])
  {
    var r := RemoveAt(pts, UndoIndex(freehand, step));
    if freehand {
      assert r == pts[..step - 1] + [pts[step]];
    } else {
      assert r == pts[..step];
    }
  }

  /** The end of a freehand click's line: the touch point, or, when the touch
      moved less than one display unit, the touch nudged by (1, 1) display
      units so that the line has a length. */
  function ClickEnd(m: Motion): Point2d
  {
    if CloserThan(m.point, m.startPoint, 1.0) then m.displayToModel(Offset(m.point, 1.0, 1.0)) else m.pointM
  }

  /** What a freehand click adds: the line from the drag's start to ClickEnd,
      unless the view vetoes it. */
  ghost function ClickLine(m: Motion): (events: seq<CmdEvent>)
    ensures |events| <= 1
    ensures |events| == 1 <==> m.willAdd(m.startPointM, ClickEnd(m))
    ensures forall e :: e in events ==> e.AddLine? && e.start == m.startPointM && e.end == ClickEnd(m)
  {
    if m.willAdd(m.startPointM, ClickEnd(m)) then [AddLine(m.startPointM, ClickEnd(m))] else []
  }

  class MgCmdDrawSplines {
    /** `m_step`: the index of the dynamic point, 0 when no stroke is in progress. */
    var step: nat
    /** `m_freehand`. */
    var freehand: bool
    /** The dynamic shape's point buffer. */
    const lines: MgBaseLines
    /** The document effects requested so far. */
    ghost var log: seq<CmdEvent>

    /** During a stroke the buffer holds the committed points and the dynamic one. */
    ghost predicate Valid()
      reads this, lines
    {
      lines.Valid() && (step > 0 ==> lines.count == step + 1)
    }

    /** The points of the dynamic shape. */
    ghost function Points(): seq<Point2d>
      requires Valid()
      reads this, lines, lines.points
    {
      lines.Contents()
    }

    /** `MgCmdDrawSplines()`: freehand mode, no stroke, an empty spline. */
    constructor ()
      ensures Valid() && fresh(lines) && fresh(lines.points)
      ensures freehand && step == 0 && Points() == [] && log == []
    {
      freehand := true;
      step := 0;
      lines := new MgBaseLines();
      log := [];
    }

    /** `canAddPoint(sender, ended)`: in click mode only at the end of a
        touch; and never while the finger is closer to the last committed
        vertex than 0.5 mm (0.2 mm at the end of a touch). */
    predicate CanAddPoint(m: Motion, ended: bool): (ok: bool)
      requires Valid()
      reads this, lines, lines.points
      ensures ok ==> freehand || ended
      ensures step == 0 ==> (ok <==> freehand || ended)
    {
      if !freehand && !ended then false
      else if step > 0 && CloserThan(m.pointM, lines.points[step - 1], m.mmToModel(if ended then 0.2 else 0.5)) then false
      else true
    }

    /** `touchBegan(sender)`.  In click mode with a stroke in progress the
        dynamic point is committed and a new dynamic point appended at the
        touch; otherwise a new stroke of two points starts at the drag's
        start point, freehand unless it is a press-and-drag. */
    method TouchBegan(m: Motion) returns (reply: Reply)
      requires Valid()
      modifies this, lines, lines.points
      ensures lines.points == old(lines.points) || fresh(lines.points)
      ensures Valid() && log == old(log)
      ensures old(step) > 0 && !old(freehand) ==>
        step == old(step) + 1 && freehand == old(freehand) &&
        Points() == old(Points()) + [m.pointM] && reply == Delegate(BaseTouchMoved)
      ensures !(old(step) > 0 && !old(freehand)) ==>
        step == 1 && freehand == !m.pressDrag &&
        Points() == [m.startPointM, m.pointM] && reply == Delegate(BaseTouchBegan)
    {
      if step > 0 && !freehand {
        step := step + 1;
        if step >= lines.count {
          var _ := lines.AddPoint(m.pointM);
        }
        return Delegate(BaseTouchMoved);
      } else {
        var _ := lines.Resize(2);
        freehand := !m.pressDrag;
        step := 1;
        lines.SetPoint(0, m.startPointM);
        lines.SetPoint(1, m.pointM);
        return Delegate(BaseTouchBegan);
      }
    }

    /** `touchMoved(sender)`: the dynamic point follows the finger; when a
        point may be added it is committed and a new dynamic point appended
        at the same place.  The write to index `step` needs a point there. */
    method TouchMoved(m: Motion) returns (reply: Reply)
      requires Valid() && step < lines.count
      modifies this, lines, lines.points
      ensures lines.points == old(lines.points) || fresh(lines.points)
      ensures Valid() && log == old(log) && freehand == old(freehand)
      ensures reply == Delegate(BaseTouchMoved)
      ensures old(step > 0 && CanAddPoint(m, false)) ==>
        step == old(step) + 1 && Points() == old(Points())[old(step) := m.pointM] + [m.pointM]
      ensures !old(step > 0 && CanAddPoint(m, false)) ==>
        step == old(step) && Points() == old(Points())[old(step) := m.pointM]
    {
      lines.SetPoint(step, m.pointM);
      if step > 0 && CanAddPoint(m, false) {
        step := step + 1;
        if step >= lines.count {
          var _ := lines.AddPoint(m.pointM);
        }
      }
      return Delegate(BaseTouchMoved);
    }

    /** The freehand `click(sender)`: a line from the drag's start to
        ClickEnd is built and offered to the view. */
    method FreehandClick(m: Motion)
      modifies this
      ensures step == old(step) && freehand == old(freehand)
      ensures log == old(log) + ClickLine(m)
    {
      var line := new MgLine();
      var pt := m.pointM;
      if CloserThan(m.point, m.startPoint, 1.0) {
        pt := m.displayToModel(Offset(m.point, 1.0, 1.0));
      }
      line.SetStartPoint(m.startPointM);
      line.SetEndPoint(pt);
      if m.willAdd(line.StartPoint(), line.EndPoint()) {
        log := log + [AddLine(line.StartPoint(), line.EndPoint())];
      }
    }

    /** `click(sender)`: the freehand click, or MgCommandDraw's in click mode. */
    method Click(m: Motion) returns (reply: Reply)
      modifies this
      ensures step == old(step) && freehand == old(freehand)
      ensures old(freehand) ==> reply == Returns(true) && log == old(log) + ClickLine(m)
      ensures !old(freehand) ==> reply == Delegate(BaseClick) && log == old(log)
    {
      if freehand {
        FreehandClick(m);
        return Returns(true);
      }
      return Delegate(BaseClick);
    }

    /** `touchEnded(sender)`: a freehand stroke with more than one committed
        point is added as a shape, a shorter one as a click; either is then
        cleared.  Click mode keeps the stroke going. */
    method TouchEnded(m: Motion) returns (reply: Reply)
      requires Valid()
      modifies this
      ensures Valid() && step == old(step) && freehand == old(freehand)
      ensures reply == Delegate(BaseTouchEnded)
      ensures old(freehand) && old(step) > 1 ==> log == old(log) + [AddSplines(Points()), DelayClear]
      ensures old(freehand) && old(step) <= 1 ==> log == old(log) + ClickLine(m) + [DelayClear]
      ensures !old(freehand) ==> log == old(log)
    {
      if freehand {
        if step > 1 {
          log := log + [AddSplines(lines.Contents())];
        } else {
          FreehandClick(m);
        }
        log := log + [DelayClear];
      }
      return Delegate(BaseTouchEnded);
    }

    /** `doubleClick(sender)`: ends a click-mode stroke, adding it when more
        than one vertex is committed; in freehand mode it is a click. */
    method DoubleClick(m: Motion) returns (reply: Reply)
      requires Valid()
      modifies this
      ensures Valid() && step == old(step) && freehand == old(freehand)
      ensures reply == Returns(true)
      ensures !old(freehand) ==>
        log == old(log) + (if old(step) > 1 then [AddSplines(Points())] else []) + [DelayClear]
      ensures old(freehand) ==> log == old(log) + ClickLine(m)
    {
      if !freehand {
        if step > 1 {
          log := log + [AddSplines(lines.Contents())];
        }
        log := log + [DelayClear];
        return Returns(true);
      }
      reply := Click(m);
    }

    /** `cancel(sender)`: a click-mode stroke with more than one committed
        vertex is kept as a shape before MgCommandDraw's cancel. */
    method Cancel() returns (reply: Reply)
      requires Valid()
      modifies this
      ensures Valid() && step == old(step) && freehand == old(freehand)
      ensures reply == Delegate(BaseCancel)
      ensures log == old(log) + (if !old(freehand) && old(step) > 1 then [AddSplines(Points())] else [])
    {
      if !freehand && step > 1 {
        log := log + [AddSplines(lines.Contents())];
      }
      return Delegate(BaseCancel);
    }

    /** `undo(enableRecall, sender)`: recall stays enabled in freehand mode;
        with more than one vertex committed one point is removed (see
        UndoIndex) and MgCommandDraw's `_undo` steps back, which it does, and
        reports, exactly when more than one vertex is committed. */
    method Undo() returns (enableRecall: bool, undone: bool)
      requires Valid()
      modifies this, lines, lines.points
      ensures lines.points == old(lines.points) || fresh(lines.points)
      ensures Valid() && freehand == old(freehand) && log == old(log)
      ensures enableRecall == freehand
      ensures undone <==> old(step) > 1
      ensures undone ==> (step == old(step) - 1 &&
        Points() == RemoveAt(old(Points()), UndoIndex(freehand, old(step))))
      ensures !undone ==> step == old(step) && Points() == old(Points())
    {
      enableRecall := freehand;
      if step > 1 {
        var _ := lines.RemovePoint(UndoIndex(freehand, step));
      }
      undone := step > 1;
      if undone {
        step := step - 1;
      }
    }
  }

  /** The end of a touch admits points more readily than a move: when the
      0.2 mm threshold is no longer than the 0.5 mm one, a point that may be
      added on a move may also be added when the touch ends, and in click
      mode only the end of a touch adds points.  touchMoved, the one caller
      in this file, asks with ended = false; the first half relates that
      question to the ended = true threshold that canAddPoint also defines. */
  lemma EndedAdmitsMore(cmd: MgCmdDrawSplines, m: Motion)
    requires cmd.Valid()
    ensures m.mmToModel(0.2) <= m.mmToModel(0.5) && cmd.CanAddPoint(m, false) ==> cmd.CanAddPoint(m, true)
    ensures !cmd.freehand ==> !cmd.CanAddPoint(m, false)
  {
    if cmd.step > 0 && m.mmToModel(0.2) <= m.mmToModel(0.5) && CloserThan(m.pointM, cmd.lines.points[cmd.step - 1], m.mmToModel(0.2)) {
      CloserThanMonotone(m.pointM, cmd.lines.points[cmd.step - 1], m.mmToModel(0.2), m.mmToModel(0.5));
    }
  }
}
