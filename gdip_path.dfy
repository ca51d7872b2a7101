/** Path decoding of the GDI+ canvas (win32/src/graphwin/canvasgdip.cpp):
    the point/type arrays of GiCanvas paths, turned into the calls that build
    a GDI+ GraphicsPath.  The GraphicsPath is the sequence of records
    appended to it, and every GDI+ call succeeds. */
module GdipPath {
  import opened Geometry

  type byte = bv8

  /** The path point types (the values of the Windows PT_* constants). */
  const CloseFigureFlag: byte := 1
  const LineToType: byte := 2
  const BeziersToType: byte := 4
  const MoveToType: byte := 6

  /** The two bits that tell a line-to from a bezier-to. */
  function Kind(t: byte): byte
  {
    t & (LineToType | BeziersToType)
  }

  function IsLineTo(t: byte): bool { Kind(t) == LineToType }
  function IsBezierTo(t: byte): bool { Kind(t) == BeziersToType }
  function Closes(t: byte): bool { t & CloseFigureFlag == CloseFigureFlag }

  /** A call on the GraphicsPath. */
  datatype PathRecord =
    | StartFigure
    | Line(from: Point2d, to: Point2d)
    | Bezier(p0: Point2d, p1: Point2d, p2: Point2d, p3: Point2d)
    | CloseFigure

  /** `GetPointCount() > 0`: some line or bezier has been added. */
  function HasPoints(path: seq<PathRecord>): bool
  {
    if |path| == 0 then false
    else path[|path| - 1].Line? || path[|path| - 1].Bezier? || HasPoints(path[..|path| - 1])
  }

  /** The CloseFigure a close flag asks for. */
  function CloseFor(t: byte): seq<PathRecord>
  {
    if Closes(t) then [CloseFigure] else []
  }

  /** A result with records prepended. */
  function Then(recs: seq<PathRecord>, r: (bool, seq<PathRecord>)): (bool, seq<PathRecord>)
  {
    (r.0, recs + r.1)
  }

  // ---- The meaning of a point/type array ----

  /** What `addPolyToPath` appends for the elements pxs/types, starting with
      current point `pt` on a path that has points exactly when `hasPoints`,
      and whether it succeeds.  A move-to starts a new figure (a StartFigure
      when the path is not empty) with a zero-length line at its point; a
      line-to draws from the current point; a bezier-to must be the first of
      three bezier-to elements, which give one cubic from the current point
      and make the third the current point.  The close flag of an element
      (for a bezier, of its third one) closes the figure.  A bezier-to that
      is not followed by two more fails the decoding, unless it carries the
      close flag: the CloseFigure that follows then reports success and
      decoding goes on with the next element.  Other types draw nothing. */
  function Decode(pxs: seq<Point2d>, types: seq<byte>, pt: Point2d, hasPoints: bool): (r: (bool, seq<PathRecord>))
    requires |pxs| == |types|
    decreases |pxs|
  {
    if |pxs| == 0 then (true, [])
    else
      var t := types[0];
      if t == MoveToType then
        Then((if hasPoints then [StartFigure] else []) + [Line(pxs[0], pxs[0])] + CloseFor(t),
             Decode(pxs[1..], types[1..], pxs[0], true))
      else if IsLineTo(t) then
        Then([Line(pt, pxs[0])] + CloseFor(t), Decode(pxs[1..], types[1..], pxs[0], true))
      else if IsBezierTo(t) then
        if |pxs| < 3 || !IsBezierTo(types[1]) || !IsBezierTo(types[2]) then
          if Closes(t) then Then([CloseFigure], Decode(pxs[1..], types[1..], pt, hasPoints))
          else (false, [])
        else
          Then([Bezier(pt, pxs[0], pxs[1], pxs[2])] + CloseFor(types[2]),
               Decode(pxs[3..], types[3..], pxs[2], true))
      else
        Then(CloseFor(t), Decode(pxs[1..], types[1..], pt, hasPoints))
  }

  // ---- Encoding figures as point/type arrays ----

  /** One element of a figure as GiGraphics writes it: a move, a line or a
      cubic bezier (three control points), the latter two optionally closing
      the figure.  A move cannot carry the close flag: a move-to is
      recognised only by its exact type. */
  datatype Segment =
    | MoveSeg(p: Point2d)
    | LineSeg(p: Point2d, close: bool)
    | BezierSeg(c1: Point2d, c2: Point2d, c3: Point2d, close: bool)

  function CloseBit(close: bool): byte { if close then CloseFigureFlag else 0 }

  /** The points of a path. */
  function Points(segs: seq<Segment>): (pxs: seq<Point2d>)
    ensures |pxs| == |Types(segs)|
    decreases |segs|
  {
    if |segs| == 0 then []
    else
      match segs[0]
      case MoveSeg(p) => [p] + Points(segs[1..])
      case LineSeg(p, _) => [p] + Points(segs[1..])
      case BezierSeg(c1, c2, c3, _) => [c1, c2, c3] + Points(segs[1..])
  }

  /** The types of a path. */
  function Types(segs: seq<Segment>): seq<byte>
    decreases |segs|
  {
    if |segs| == 0 then []
    else
      match segs[0]
      case MoveSeg(_) => [MoveToType] + Types(segs[1..])
      case LineSeg(_, c) => [LineToType | CloseBit(c)] + Types(segs[1..])
      case BezierSeg(_, _, _, c) => [BeziersToType, BeziersToType, BeziersToType | CloseBit(c)] + Types(segs[1..])
  }

  /** The GraphicsPath calls a figure stands for, from current point pt. */
  function Records(segs: seq<Segment>, pt: Point2d, hasPoints: bool): seq<PathRecord>
    decreases |segs|
  {
    if |segs| == 0 then []
    else
      match segs[0]
      case MoveSeg(p) =>
        (if hasPoints then [StartFigure] else []) + [Line(p, p)] + Records(segs[1..], p, true)
      case LineSeg(p, c) =>
        [Line(pt, p)] + (if c then [CloseFigure] else []) + Records(segs[1..], p, true)
      case BezierSeg(c1, c2, c3, c) =>
        [Bezier(pt, c1, c2, c3)] + (if c then [CloseFigure] else []) + Records(segs[1..], c3, true)
  }

  /** Decoding inverts encoding: a path written as segments decodes
      successfully to exactly the calls the segments stand for. */
  lemma {:induction false} DecodeEncoded(segs: seq<Segment>, pt: Point2d, hasPoints: bool)
    ensures Decode(Points(segs), Types(segs), pt, hasPoints) == (true, Records(segs, pt, hasPoints))
    decreases |segs|
  {
    if |segs| > 0 {
      var pxs, types, rest := Points(segs), Types(segs), segs[1..];
      match segs[0]
      case MoveSeg(p) =>
        assert pxs[1..] == Points(rest) && types[1..] == Types(rest);
        assert types[0] == MoveToType && !Closes(MoveToType) && pxs[0] == p;
        assert Decode(pxs, types, pt, hasPoints) ==
          Then((if hasPoints then [StartFigure] else []) + [Line(pxs[0], pxs[0])] + CloseFor(types[0]),
               Decode(pxs[1..], types[1..], pxs[0], true));
        assert CloseFor(types[0]) == [];
        assert Records(segs, pt, hasPoints) == (if hasPoints then [StartFigure] else []) + [Line(p, p)] + Records(rest, p, true);
        DecodeEncoded(rest, p, true);
        assert Decode(pxs[1..], types[1..], pxs[0], true) == (true, Records(rest, p, true));
        var head := (if hasPoints then [StartFigure] else []) + [Line(p, p)];
        assert head + CloseFor(types[0]) == head;
        assert Decode(pxs, types, pt, hasPoints) == (true, head + Records(rest, p, true));
      case LineSeg(p, c) =>
        assert pxs[1..] == Points(rest) && types[1..] == Types(rest);
        assert IsLineTo(types[0]) && types[0] != MoveToType && Closes(types[0]) == c;
        DecodeEncoded(rest, p, true);
      case BezierSeg(c1, c2, c3, c) =>
        assert pxs[3..] == Points(rest) && types[3..] == Types(rest);
        assert IsBezierTo(types[0]) && IsBezierTo(types[1]) && IsBezierTo(types[2]);
        assert !IsLineTo(types[0]) && types[0] != MoveToType && Closes(types[2]) == c;
        DecodeEncoded(rest, c3, true);
    }
  }

  /** A bezier-to is accepted only when two more bezier-to elements follow;
      one without them fails the decoding and stops it, with nothing
      appended, unless it carries the close flag. */
  lemma BezierNeedsTriplet(pxs: seq<Point2d>, types: seq<byte>, pt: Point2d, hasPoints: bool)
    requires |pxs| == |types| && |pxs| > 0 && IsBezierTo(types[0])
    ensures (|pxs| >= 3 && IsBezierTo(types[1]) && IsBezierTo(types[2])) ==>
      Decode(pxs, types, pt, hasPoints) ==
      Then([Bezier(pt, pxs[0], pxs[1], pxs[2])] + CloseFor(types[2]), Decode(pxs[3..], types[3..], pxs[2], true))
    ensures !(|pxs| >= 3 && IsBezierTo(types[1]) && IsBezierTo(types[2])) && !Closes(types[0]) ==>
      Decode(pxs, types, pt, hasPoints) == (false, [])
  {
    assert types[0] != MoveToType && !IsLineTo(types[0]);
  }

  /** The close flag on a malformed bezier-to masks the failure: the path
      move-to P, bezier-to|close Q, line-to R decodes successfully, with the
      bezier dropped and the line drawn from P. */
  lemma CloseFlagMasksBrokenBezier(p: Point2d, q: Point2d, r: Point2d)
    ensures Decode([p, q, r], [MoveToType, BeziersToType | CloseFigureFlag, LineToType], Origin(), false)
      == (true, [Line(p, p), CloseFigure, Line(p, r)])
  {
    var pxs, types: seq<byte> := [p, q, r], [MoveToType, BeziersToType | CloseFigureFlag, LineToType];
    var line: seq<byte> := [LineToType];
    assert line[0] != MoveToType && IsLineTo(line[0]) && CloseFor(line[0]) == [];
    assert [r][1..] == [] && line[1..] == [];
    assert Decode([r][1..], line[1..], r, true) == (true, []);
    assert Decode([r], line, p, true) == Then([Line(p, r)] + CloseFor(line[0]), Decode([r][1..], line[1..], r, true));
    var tail := types[1..];
    assert tail[0] != MoveToType && !IsLineTo(tail[0]) && IsBezierTo(tail[0]) && Closes(tail[0]);
    assert [q, r][1..] == [r] && tail[1..] == line;
    assert Decode([q, r], tail, p, true) == Then([CloseFigure], Decode([r], line, p, true));
    assert types[0] == MoveToType && CloseFor(types[0]) == [];
    assert pxs[1..] == [q, r];
    assert Decode(pxs, types, Origin(), false) == Then(([] + [Line(pxs[0], pxs[0])]) + CloseFor(types[0]), Decode(pxs[1..], types[1..], pxs[0], true));
    assert Decode(pxs[1..], types[1..], pxs[0], true) == (true, [CloseFigure] + ([Line(p, r)] + CloseFor(line[0]) + []));
    assert ([] + [Line(p, p)]) + [] + ([CloseFigure] + ([Line(p, r)] + [] + [])) == [Line(p, p), CloseFigure, Line(p, r)];
  }

  /** Decode at element i of the arrays, case by case: the element's
      records before any close flag, and the decoding of what follows. */
  lemma DecodeAt(pxs: seq<Point2d>, types: seq<byte>, i: nat, pt: Point2d, hasPoints: bool)
    requires |pxs| == |types| && i < |pxs|
    ensures var r, t := Decode(pxs[i..], types[i..], pt, hasPoints), types[i];
      (t == MoveToType ==>
        r == Then((if hasPoints then [StartFigure] else []) + [Line(pxs[i], pxs[i])] + CloseFor(t),
                  Decode(pxs[i + 1..], types[i + 1..], pxs[i], true))) &&
      (t != MoveToType && IsLineTo(t) ==>
        r == Then([Line(pt, pxs[i])] + CloseFor(t), Decode(pxs[i + 1..], types[i + 1..], pxs[i], true))) &&
      (t != MoveToType && IsBezierTo(t) && i + 2 < |pxs| && IsBezierTo(types[i + 1]) && IsBezierTo(types[i + 2]) ==>
        r == Then([Bezier(pt, pxs[i], pxs[i + 1], pxs[i + 2])] + CloseFor(types[i + 2]),
                  Decode(pxs[i + 3..], types[i + 3..], pxs[i + 2], true))) &&
      (t != MoveToType && IsBezierTo(t) && !(i + 2 < |pxs| && IsBezierTo(types[i + 1]) && IsBezierTo(types[i + 2])) ==>
        r == if Closes(t) then Then([CloseFigure], Decode(pxs[i + 1..], types[i + 1..], pt, hasPoints)) else (false, [])) &&
      (t != MoveToType && !IsLineTo(t) && !IsBezierTo(t) ==>
        r == Then(CloseFor(t), Decode(pxs[i + 1..], types[i + 1..], pt, hasPoints)))
  {
    assert pxs[i..][1..] == pxs[i + 1..] && types[i..][1..] == types[i + 1..];
    if i + 2 < |pxs| {
      assert pxs[i..][3..] == pxs[i + 3..] && types[i..][3..] == types[i + 3..];
    }
  }

  /** The method form of `GiCanvasGdipImpl::addPolyToPath(pPath, count, pxs,
      types)`: the loop over the elements appends to `path0` what Decode
      says and reports Decode's verdict.  It stops at the first failure. */
  method AddPolyToPath(path0: seq<PathRecord>, pxs: seq<Point2d>, types: seq<byte>) returns (ret: bool, path: seq<PathRecord>)
    requires |pxs| == |types|
    ensures (ret, path) == Then(path0, Decode(pxs, types, Origin(), HasPoints(path0)))
  {
    ghost var final := Then(path0, Decode(pxs, types, Origin(), HasPoints(path0)));
    var pt := Origin();
    ret := true;
    path := path0;
    var i := 0;
    assert pxs[0..] == pxs && types[0..] == types;
    while i < |pxs| && ret
      invariant 0 <= i <= |pxs|
      invariant ret ==> final == Then(path, Decode(pxs[i..], types[i..], pt, HasPoints(path)))
      invariant !ret ==> final == (false, path)
      decreases |pxs| - i
    {
      i, pt, ret, path := AddPolyElement(final, pxs, types, i, pt, path);
    }
    if ret {
      assert pxs[i..] == [] && types[i..] == [];
      assert Decode(pxs[i..], types[i..], pt, HasPoints(path)) == (true, []);
      assert path + [] == path;
    }
  }

  /** One pass of the loop of `addPolyToPath` over element i, with current
      point pt: a move-to, line-to or complete bezier triplet (skipped with
      `i += 2`) is appended, a broken bezier fails, and the close flag of the
      last element used appends a CloseFigure and reports success.  The
      result is the index after the elements used, the new current point,
      the result flag and the path; decoding from there still gives `final`. */
  method AddPolyElement(ghost final: (bool, seq<PathRecord>), pxs: seq<Point2d>, types: seq<byte>, i0: nat, pt0: Point2d, path0: seq<PathRecord>)
    returns (i: nat, pt: Point2d, ret: bool, path: seq<PathRecord>)
    requires |pxs| == |types| && i0 < |pxs|
    requires final == Then(path0, Decode(pxs[i0..], types[i0..], pt0, HasPoints(path0)))
    ensures i0 < i <= |pxs|
    ensures var bezier := types[i0] != MoveToType && !IsLineTo(types[i0]) && IsBezierTo(types[i0]);
      && (bezier && i0 + 2 < |pxs| && IsBezierTo(types[i0 + 1]) && IsBezierTo(types[i0 + 2]) ==>
            i == i0 + 3 && pt == pxs[i0 + 2])
      && (!(bezier && i0 + 2 < |pxs| && IsBezierTo(types[i0 + 1]) && IsBezierTo(types[i0 + 2])) ==> i == i0 + 1)
      && (types[i0] == MoveToType || IsLineTo(types[i0]) ==> pt == pxs[i0])
      && (types[i0] != MoveToType && !IsLineTo(types[i0]) && !(bezier && i0 + 2 < |pxs| && IsBezierTo(types[i0 + 1]) && IsBezierTo(types[i0 + 2])) ==> pt == pt0)
    ensures ret ==> final == Then(path, Decode(pxs[i..], types[i..], pt, HasPoints(path)))
    ensures !ret ==> final == (false, path)
  {
    i, pt, ret, path := i0, pt0, true, path0;
    if types[i] == MoveToType {
      MoveStep(final, pxs, types, i, pt, path);
      if HasPoints(path) {
        path := path + [StartFigure];
        ret := true;
      }
      pt := pxs[i];
      path := path + [Line(pt, pt)];
      ret := true;
    } else if IsLineTo(types[i]) {
      LineStep(final, pxs, types, i, pt, path);
      path := path + [Line(pt, pxs[i])];
      pt := pxs[i];
      ret := true;
    } else if IsBezierTo(types[i]) {
      if i + 2 >= |pxs| || !IsBezierTo(types[i + 1]) || !IsBezierTo(types[i + 2]) {
        BrokenBezierStep(final, pxs, types, i, pt, path);
        ret := false;
      } else {
        BezierStep(final, pxs, types, i, pt, path);
        path := path + [Bezier(pt, pxs[i], pxs[i + 1], pxs[i + 2])];
        i := i + 2;
        pt := pxs[i];
        ret := true;
      }
    } else {
      OtherStep(final, pxs, types, i, pt, path);
    }
    ghost var mid := path;
    if Closes(types[i]) {
      path := path + [CloseFigure];
      ret := true;
    } else {
      assert mid + CloseFor(types[i]) == mid;
    }
    assert path == mid + CloseFor(types[i]);
    i := i + 1;
  }

  /** The records appended for element i, its close included, and the
      decoding of the elements after it make up what is left to decode. */
  lemma StepComposes(final: (bool, seq<PathRecord>), path: seq<PathRecord>, head: seq<PathRecord>,
      rest: (bool, seq<PathRecord>), next: (bool, seq<PathRecord>))
    requires final == Then(path, rest) && rest == Then(head, next)
    ensures final == Then(path + head, next)
  {
    ThenComposes(path, head, next);
  }

  /** A move-to element (see Decode). */
  lemma MoveStep(final: (bool, seq<PathRecord>), pxs: seq<Point2d>, types: seq<byte>, i: nat, pt: Point2d, path: seq<PathRecord>)
    requires |pxs| == |types| && i < |pxs| && types[i] == MoveToType
    requires final == Then(path, Decode(pxs[i..], types[i..], pt, HasPoints(path)))
    ensures var p := (if HasPoints(path) then path + [StartFigure] else path) + [Line(pxs[i], pxs[i])] + CloseFor(types[i]);
      final == Then(p, Decode(pxs[i + 1..], types[i + 1..], pxs[i], HasPoints(p)))
  {
    DecodeAt(pxs, types, i, pt, HasPoints(path));
    var head := (if HasPoints(path) then [StartFigure] else []) + [Line(pxs[i], pxs[i])] + CloseFor(types[i]);
    StepComposes(final, path, head, Decode(pxs[i..], types[i..], pt, HasPoints(path)),
      Decode(pxs[i + 1..], types[i + 1..], pxs[i], true));
    var q := (if HasPoints(path) then path + [StartFigure] else path) + [Line(pxs[i], pxs[i])];
    assert path + head == q + CloseFor(types[i]);
    EndsWithPoints(q);
    if Closes(types[i]) { HasPointsAppend(q, CloseFigure); } else { assert q + [] == q; }
  }

  /** A line-to element. */
  lemma LineStep(final: (bool, seq<PathRecord>), pxs: seq<Point2d>, types: seq<byte>, i: nat, pt: Point2d, path: seq<PathRecord>)
    requires |pxs| == |types| && i < |pxs| && types[i] != MoveToType && IsLineTo(types[i])
    requires final == Then(path, Decode(pxs[i..], types[i..], pt, HasPoints(path)))
    ensures var p := path + [Line(pt, pxs[i])] + CloseFor(types[i]);
      final == Then(p, Decode(pxs[i + 1..], types[i + 1..], pxs[i], HasPoints(p)))
  {
    DecodeAt(pxs, types, i, pt, HasPoints(path));
    StepComposes(final, path, [Line(pt, pxs[i])] + CloseFor(types[i]), Decode(pxs[i..], types[i..], pt, HasPoints(path)),
      Decode(pxs[i + 1..], types[i + 1..], pxs[i], true));
    var q := path + [Line(pt, pxs[i])];
    assert path + ([Line(pt, pxs[i])] + CloseFor(types[i])) == q + CloseFor(types[i]);
    EndsWithPoints(q);
    if Closes(types[i]) { HasPointsAppend(q, CloseFigure); } else { assert q + [] == q; }
  }

  /** A bezier-to element followed by two more: one cubic, and the decoding
      resumes after the third. */
  lemma BezierStep(final: (bool, seq<PathRecord>), pxs: seq<Point2d>, types: seq<byte>, i: nat, pt: Point2d, path: seq<PathRecord>)
    requires |pxs| == |types| && i + 2 < |pxs| && types[i] != MoveToType && !IsLineTo(types[i])
    requires IsBezierTo(types[i]) && IsBezierTo(types[i + 1]) && IsBezierTo(types[i + 2])
    requires final == Then(path, Decode(pxs[i..], types[i..], pt, HasPoints(path)))
    ensures var p := path + [Bezier(pt, pxs[i], pxs[i + 1], pxs[i + 2])] + CloseFor(types[i + 2]);
      final == Then(p, Decode(pxs[i + 3..], types[i + 3..], pxs[i + 2], HasPoints(p)))
  {
    DecodeAt(pxs, types, i, pt, HasPoints(path));
    StepComposes(final, path, [Bezier(pt, pxs[i], pxs[i + 1], pxs[i + 2])] + CloseFor(types[i + 2]),
      Decode(pxs[i..], types[i..], pt, HasPoints(path)), Decode(pxs[i + 3..], types[i + 3..], pxs[i + 2], true));
    var q := path + [Bezier(pt, pxs[i], pxs[i + 1], pxs[i + 2])];
    assert path + ([Bezier(pt, pxs[i], pxs[i + 1], pxs[i + 2])] + CloseFor(types[i + 2])) == q + CloseFor(types[i + 2]);
    EndsWithPoints(q);
    if Closes(types[i + 2]) { HasPointsAppend(q, CloseFigure); } else { assert q + [] == q; }
  }

  /** A bezier-to element not followed by two more: the decoding fails,
      unless the element's close flag closes the figure and decoding goes on. */
  lemma BrokenBezierStep(final: (bool, seq<PathRecord>), pxs: seq<Point2d>, types: seq<byte>, i: nat, pt: Point2d, path: seq<PathRecord>)
    requires |pxs| == |types| && i < |pxs| && types[i] != MoveToType && !IsLineTo(types[i]) && IsBezierTo(types[i])
    requires !(i + 2 < |pxs| && IsBezierTo(types[i + 1]) && IsBezierTo(types[i + 2]))
    requires final == Then(path, Decode(pxs[i..], types[i..], pt, HasPoints(path)))
    ensures Closes(types[i]) ==>
      final == Then(path + [CloseFigure], Decode(pxs[i + 1..], types[i + 1..], pt, HasPoints(path + [CloseFigure])))
    ensures !Closes(types[i]) ==> final == (false, path)
  {
    DecodeAt(pxs, types, i, pt, HasPoints(path));
    if Closes(types[i]) {
      HasPointsAppend(path, CloseFigure);
      StepComposes(final, path, [CloseFigure], Decode(pxs[i..], types[i..], pt, HasPoints(path)),
        Decode(pxs[i + 1..], types[i + 1..], pt, HasPoints(path)));
    } else {
      assert path + [] == path;
    }
  }

  /** An element of any other type draws nothing but its close. */
  lemma OtherStep(final: (bool, seq<PathRecord>), pxs: seq<Point2d>, types: seq<byte>, i: nat, pt: Point2d, path: seq<PathRecord>)
    requires |pxs| == |types| && i < |pxs| && types[i] != MoveToType && !IsLineTo(types[i]) && !IsBezierTo(types[i])
    requires final == Then(path, Decode(pxs[i..], types[i..], pt, HasPoints(path)))
    ensures var p := path + CloseFor(types[i]);
      final == Then(p, Decode(pxs[i + 1..], types[i + 1..], pt, HasPoints(p)))
  {
    DecodeAt(pxs, types, i, pt, HasPoints(path));
    StepComposes(final, path, CloseFor(types[i]), Decode(pxs[i..], types[i..], pt, HasPoints(path)),
      Decode(pxs[i + 1..], types[i + 1..], pt, HasPoints(path)));
    if Closes(types[i]) { HasPointsAppend(path, CloseFigure); } else { assert path + [] == path; }
  }

  /** Appending in two steps is appending the two parts at once. */
  lemma ThenComposes(a: seq<PathRecord>, b: seq<PathRecord>, r: (bool, seq<PathRecord>))
    ensures Then(a, Then(b, r)) == Then(a + b, r)
  {
    assert (a + b) + r.1 == a + (b + r.1);
  }

  /** A path whose last record is a line or a cubic has points. */
  lemma EndsWithPoints(path: seq<PathRecord>)
    requires |path| > 0 && (path[|path| - 1].Line? || path[|path| - 1].Bezier?)
    ensures HasPoints(path)
  {
  }

  /** Appending a StartFigure or CloseFigure adds no points. */
  lemma HasPointsAppend(path: seq<PathRecord>, r: PathRecord)
    requires r.StartFigure? || r.CloseFigure?
    ensures HasPoints(path + [r]) == HasPoints(path)
  {
    assert (path + [r])[..|path|] == path;
  }

  // ---- Bezier grouping of rawBezierTo ----

  /** The cubics `rawBezierTo` appends: pxs in complete groups of three
      control points, the first cubic from `start` and each later one from
      the end of the one before. */
  function BezierGroups(start: Point2d, pxs: seq<Point2d>): (recs: seq<PathRecord>)
    decreases |pxs|
  {
    if |pxs| < 3 then []
    else [Bezier(start, pxs[0], pxs[1], pxs[2])] + BezierGroups(pxs[2], pxs[3..])
  }

  /** One cubic per complete group of three points; cubic k takes points
      3k .. 3k+2 and starts where cubic k-1 ends (at `start` for the first). */
  lemma {:induction false} BezierGroupsShape(start: Point2d, pxs: seq<Point2d>)
    ensures |BezierGroups(start, pxs)| == |pxs| / 3
    ensures forall k :: 0 <= k < |pxs| / 3 ==>
      BezierGroups(start, pxs)[k] ==
        Bezier(if k == 0 then start else pxs[3 * k - 1], pxs[3 * k], pxs[3 * k + 1], pxs[3 * k + 2])
    decreases |pxs|
  {
    if |pxs| >= 3 {
      BezierGroupsShape(pxs[2], pxs[3..]);
      var g := BezierGroups(start, pxs);
      forall k | 0 < k < |pxs| / 3
        ensures g[k] == Bezier(pxs[3 * k - 1], pxs[3 * k], pxs[3 * k + 1], pxs[3 * k + 2])
      {
        var j := k - 1;
        assert g[k] == BezierGroups(pxs[2], pxs[3..])[j];
        assert 3 * k - 1 == 3 * j + 2;
      }
    }
  }

  /** One or two trailing points are ignored. */
  lemma {:induction false} BezierGroupsIgnoreTail(start: Point2d, pxs: seq<Point2d>)
    ensures BezierGroups(start, pxs) == BezierGroups(start, pxs[..|pxs| - |pxs| % 3])
    decreases |pxs|
  {
    if |pxs| >= 3 {
      var n := |pxs| - |pxs| % 3;
      assert pxs[..n][3..] == pxs[3..][..|pxs[3..]| - |pxs[3..]| % 3];
      BezierGroupsIgnoreTail(pxs[2], pxs[3..]);
    }
  }

  /** The end point of a path, or the origin when it has none. */
  function LastPoint(path: seq<PathRecord>): Point2d
    decreases |path|
  {
    if |path| == 0 then Origin()
    else
      match path[|path| - 1]
      case Line(_, to) => to
      case Bezier(_, _, _, p3) => p3
      case _ => LastPoint(path[..|path| - 1])
  }

  /** The loop of `GiCanvasGdip::rawBezierTo(pxs, count)`: from the path's
      last point, one cubic per group of three points, each from the end of
      the one before. */
  method AppendBeziers(path0: seq<PathRecord>, pxs: seq<Point2d>) returns (path: seq<PathRecord>)
    ensures path == path0 + BezierGroups(LastPoint(path0), pxs)
  {
    var p0 := LastPoint(path0);
    path := path0;
    var i := 0;
    while i + 2 < |pxs|
      invariant 0 <= i <= |pxs| && i % 3 == 0
      invariant path0 + BezierGroups(LastPoint(path0), pxs) == path + BezierGroups(p0, pxs[i..])
      decreases |pxs| - i
    {
      assert pxs[i..][3..] == pxs[i + 3..];
      path := path + [Bezier(p0, pxs[i], pxs[i + 1], pxs[i + 2])];
      p0 := pxs[i + 2];
      i := i + 3;
    }
  }
}
