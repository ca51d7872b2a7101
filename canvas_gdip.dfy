/** The decision logic of the GDI+ canvas (win32/src/graphwin/canvasgdip.cpp):
    the pen and brush cache of GdipDrawImplBase, the size normalisation and
    draw guards of rawRect / rawEllipse, rawBezierTo and the argument guard
    of rawPath.  GDI+ objects are values; each GDI+ call succeeds and is
    recorded in the canvas' output. */
module CanvasGdip {
  import opened Options
  import opened Geometry
  import opened Colors
  import opened GdipPath

  /** `kGiLineSolid`, the first GiLineStyle. */
  const LineSolid: int := 0

  /** The drawing attributes of a GiContext the cache compares; colours are
      held as their getARGB packing, which is equal exactly when the colours
      are (EqualsIffSameARGB). */
  datatype GiContext = GiContext(
    lineStyle: int, lineWidth: real, lineColor: bv32, lineAlpha: byte,
    fillColor: bv32, fillAlpha: byte)

  /** What the canvas takes from outside: GiContext's `isNullLine` and
      `hasFillColor`, and the graphics' `calcPenWidth` and `calcPenColor`. */
  datatype Env = Env(
    isNullLine: GiContext -> bool,
    hasFillColor: GiContext -> bool,
    calcPenWidth: real -> real,
    calcPenColor: bv32 -> bv32)

  /** A GDI+ pen: its ARGB colour, width and dash style. */
  datatype Pen = Pen(color: bv32, width: real, dashStyle: int)

  /** A GDI+ solid brush: its ARGB colour. */
  datatype Brush = Brush(color: bv32)

  /** `G::Color(alpha, color.r, color.g, color.b)`. */
  function WithAlpha(alpha: byte, color: bv32): (c: bv32)
    ensures AlphaOf(c) == alpha && RedOf(c) == RedOf(color) && GreenOf(c) == GreenOf(color) && BlueOf(c) == BlueOf(color)
  {
    UnpackPack(alpha, RedOf(color), GreenOf(color), BlueOf(color));
    Pack(alpha, RedOf(color), GreenOf(color), BlueOf(color))
  }

  // ---- The cache rule ----

  /** The cached pen serves a request when all four line attributes match. */
  predicate LineMatches(cache: GiContext, c: GiContext)
  {
    cache.lineStyle == c.lineStyle && cache.lineWidth == c.lineWidth &&
    cache.lineColor == c.lineColor && cache.lineAlpha == c.lineAlpha
  }

  /** The cached brush serves a request when fill colour and alpha match. */
  predicate FillMatches(cache: GiContext, c: GiContext)
  {
    cache.fillColor == c.fillColor && cache.fillAlpha == c.fillAlpha
  }

  /** The cache after a pen rebuild: the request's four line attributes,
      the fill attributes kept. */
  function WithLine(cache: GiContext, c: GiContext): (r: GiContext)
    ensures LineMatches(r, c) && FillMatches(r, cache)
  {
    cache.(lineStyle := c.lineStyle, lineWidth := c.lineWidth, lineColor := c.lineColor, lineAlpha := c.lineAlpha)
  }

  /** The cache after a brush rebuild: the request's fill attributes, the
      line attributes kept. */
  function WithFill(cache: GiContext, c: GiContext): (r: GiContext)
    ensures FillMatches(r, c) && LineMatches(r, cache)
  {
    cache.(fillColor := c.fillColor, fillAlpha := c.fillAlpha)
  }

  /** The pen a request builds: the request's alpha over the graphics' pen
      colour, the graphics' pen width, and the request's line style as dash
      style. */
  function NewPen(c: GiContext, env: Env): (p: Pen)
    ensures AlphaOf(p.color) == c.lineAlpha && p.dashStyle == c.lineStyle
    ensures var rgb := env.calcPenColor(c.lineColor);
      RedOf(p.color) == RedOf(rgb) && GreenOf(p.color) == GreenOf(rgb) && BlueOf(p.color) == BlueOf(rgb)
    ensures p.width == env.calcPenWidth(c.lineWidth)
  {
    Pen(WithAlpha(c.lineAlpha, env.calcPenColor(c.lineColor)), env.calcPenWidth(c.lineWidth), c.lineStyle)
  }

  /** The brush a request builds: the request's fill alpha over the
      graphics' pen colour for the fill colour. */
  function NewBrush(c: GiContext, env: Env): (b: Brush)
    ensures AlphaOf(b.color) == c.fillAlpha
    ensures var rgb := env.calcPenColor(c.fillColor);
      RedOf(b.color) == RedOf(rgb) && GreenOf(b.color) == GreenOf(rgb) && BlueOf(b.color) == BlueOf(rgb)
  {
    Brush(WithAlpha(c.fillAlpha, env.calcPenColor(c.fillColor)))
  }

  /** The two updates of the cache touch disjoint attributes: after both, in
      either order, the cache serves both requests. */
  lemma CacheUpdatesCommute(cache: GiContext, c: GiContext, d: GiContext)
    ensures WithFill(WithLine(cache, c), d) == WithLine(WithFill(cache, d), c)
    ensures LineMatches(WithFill(WithLine(cache, c), d), c) && FillMatches(WithFill(WithLine(cache, c), d), d)
  {
  }

  // ---- Rectangles ----

  /** A rectangle as rawRect / rawEllipse receive it: a corner and a signed size. */
  datatype Rect = Rect(x: real, y: real, w: real, h: real)

  /** The size normalisation of rawRect and rawEllipse: a negative width or
      height moves the corner to the other side and makes the size
      positive.  The rectangle covers the same span on each axis. */
  function Normalize(r: Rect): (n: Rect)
    ensures n.w >= 0.0 && n.h >= 0.0
    ensures n.w == r.w || n.w == -r.w
    ensures n.h == r.h || n.h == -r.h
    ensures (n.x == r.x && n.x + n.w == r.x + r.w) || (n.x == r.x + r.w && n.x + n.w == r.x)
    ensures (n.y == r.y && n.y + n.h == r.y + r.h) || (n.y == r.y + r.h && n.y + n.h == r.y)
  {
    var (x, w) := if r.w < 0.0 then (r.x + r.w, -r.w) else (r.x, r.w);
    var (y, h) := if r.h < 0.0 then (r.y + r.h, -r.h) else (r.y, r.h);
    Rect(x, y, w, h)
  }

  /** Normalising twice is normalising once, and the result is drawn
      exactly when neither size of the request is zero. */
  lemma NormalizeIdempotent(r: Rect)
    ensures Normalize(Normalize(r)) == Normalize(r)
    ensures (Normalize(r).w > 0.0 && Normalize(r).h > 0.0) <==> (r.w != 0.0 && r.h != 0.0)
  {
  }

  /** A call on the GDI+ Graphics. */
  datatype DrawCall =
    | FillRectangle(brush: Brush, rect: Rect)
    | DrawRectangle(pen: Pen, rect: Rect)
    | FillEllipse(brush: Brush, rect: Rect)
    | DrawEllipse(pen: Pen, rect: Rect)
    | FillPath(brush: Brush, path: seq<PathRecord>)
    | DrawPath(pen: Pen, path: seq<PathRecord>)

  /** GdipDrawImplBase and the path of GiCanvasGdipImpl. */
  class GdipDrawImpl {
    /** `m_context`: the attributes the cached pen and brush were built from. */
    var context: GiContext
    /** `m_pen`, `m_brush`: the cached GDI+ objects, if built. */
    var pen: Option<Pen>
    var brush: Option<Brush>
    /** `m_penNull`, `m_brushNull`. */
    var penNull: bool
    var brushNull: bool
    /** `m_path`: the GraphicsPath being built between rawBeginPath and rawEndPath. */
    var path: Option<seq<PathRecord>>

    /** `GiCanvasGdipImpl(owner)`: nothing cached, a null brush, no path. */
    constructor (context: GiContext)
      ensures this.context == context && pen == None && brush == None
      ensures !penNull && brushNull && path == None
    {
      this.context := context;
      pen, brush := None, None;
      penNull, brushNull := false, true;
      path := None;
    }

    /** `createPen(ctx, pNotSmoothing)`: no pen for a null line; otherwise the
        cached pen, rebuilt from the request unless it matches the request's
        line attributes.  A missing ctx means the cached context.  Only a
        rebuild reports whether smoothing must be off: for a thin, non-solid
        pen. */
    method CreatePen(ctx: Option<GiContext>, env: Env) returns (p: Option<Pen>, notSmoothing: Option<bool>)
      modifies this
      ensures var c := if ctx.Some? then ctx.value else old(context);
        && penNull == env.isNullLine(c)
        && brush == old(brush) && brushNull == old(brushNull) && path == old(path)
        && (penNull ==> p == None && pen == old(pen) && context == old(context) && notSmoothing == None)
        && (!penNull && old(pen).Some? && LineMatches(old(context), c) ==>
              p == pen == old(pen) && context == old(context) && notSmoothing == None)
        && (!penNull && !(old(pen).Some? && LineMatches(old(context), c)) ==>
              context == WithLine(old(context), c) && p == pen == Some(NewPen(c, env)) &&
              notSmoothing == Some(NewPen(c, env).width <= 1.0 && c.lineStyle != LineSolid))
    {
      var c := if ctx.Some? then ctx.value else context;
      p, notSmoothing := None, None;
      penNull := env.isNullLine(c);
      if !penNull {
        if pen.None? || !LineMatches(context, c) {
          context := WithLine(context, c);
          pen := None;
          var width := env.calcPenWidth(c.lineWidth);
          var color := env.calcPenColor(c.lineColor);
          pen := Some(Pen(WithAlpha(c.lineAlpha, color), width, c.lineStyle));
          notSmoothing := Some(width <= 1.0 && c.lineStyle != LineSolid);
        }
        p := pen;
      }
    }

    /** `createBrush(ctx)`: no brush without a fill colour; otherwise the
        cached brush, rebuilt from the request unless it matches the
        request's fill attributes. */
    method CreateBrush(ctx: Option<GiContext>, env: Env) returns (b: Option<Brush>)
      modifies this
      ensures var c := if ctx.Some? then ctx.value else old(context);
        && brushNull == !env.hasFillColor(c)
        && pen == old(pen) && penNull == old(penNull) && path == old(path)
        && (brushNull ==> b == None && brush == old(brush) && context == old(context))
        && (!brushNull && old(brush).Some? && FillMatches(old(context), c) ==>
              b == brush == old(brush) && context == old(context))
        && (!brushNull && !(old(brush).Some? && FillMatches(old(context), c)) ==>
              context == WithFill(old(context), c) && b == brush == Some(NewBrush(c, env)))
    {
      var c := if ctx.Some? then ctx.value else context;
      b := None;
      brushNull := !env.hasFillColor(c);
      if !brushNull {
        if brush.None? || !FillMatches(context, c) {
          context := WithFill(context, c);
          brush := None;
          var color := env.calcPenColor(c.fillColor);
          brush := Some(Brush(WithAlpha(c.fillAlpha, color)));
        }
        b := brush;
      }
    }
  }

  /** GiCanvasGdip: the raw drawing calls. */
  class GiCanvasGdip {
    const draw: GdipDrawImpl
    /** The calls made on the GDI+ Graphics. */
    ghost var output: seq<DrawCall>

    constructor (context: GiContext)
      ensures fresh(draw) && draw.context == context && draw.pen == None && draw.brush == None
      ensures draw.path == None && !draw.penNull && draw.brushNull && output == []
    {
      draw := new GdipDrawImpl(context);
      output := [];
    }

    /** The fill and outline of a normalised rectangle (of the ellipse
        inscribed in it when `ellipse`), as far as a brush and a pen are at
        hand, or nothing when a size is zero. */
    static ghost function Drawn(ellipse: bool, b: Option<Brush>, p: Option<Pen>, n: Rect): seq<DrawCall>
    {
      if n.w > 0.0 && n.h > 0.0 then
        (if b.Some? then [if ellipse then FillEllipse(b.value, n) else FillRectangle(b.value, n)] else []) +
        (if p.Some? then [if ellipse then DrawEllipse(p.value, n) else DrawRectangle(p.value, n)] else [])
      else []
    }

    /** `rawRect(ctx, x, y, w, h)`: the pen is made (TempGdipPen), then the
        brush; the rectangle is normalised, then filled with the brush and
        outlined with the pen, those that exist, unless a size is zero.  The
        result tells whether anything was drawn. */
    method RawRect(ctx: Option<GiContext>, r: Rect, env: Env) returns (ret: bool, p: Option<Pen>, b: Option<Brush>)
      modifies draw, this
      ensures draw.path == old(draw.path)
      ensures var n := Normalize(r);
        output == old(output) + Drawn(false, b, p, n)
      ensures ret <==> (p.Some? || b.Some?) && r.w != 0.0 && r.h != 0.0
      ensures var c := if ctx.Some? then ctx.value else old(draw.context);
        && draw.penNull == env.isNullLine(c) && draw.brushNull == !env.hasFillColor(c)
        && (p.Some? <==> !env.isNullLine(c)) && (b.Some? <==> env.hasFillColor(c))
        && (p.Some? ==> p == draw.pen && LineMatches(draw.context, c))
        && (b.Some? ==> b == draw.brush && FillMatches(draw.context, c))
        && (p.None? ==> draw.pen == old(draw.pen))
        && (b.None? ==> draw.brush == old(draw.brush))
        && (p.Some? ==> p == if old(draw.pen).Some? && LineMatches(old(draw.context), c) then old(draw.pen) else Some(NewPen(c, env)))
        && (b.Some? ==> b == if old(draw.brush).Some? && FillMatches(old(draw.context), c) then old(draw.brush) else Some(NewBrush(c, env)))
        && (!env.isNullLine(c) || LineMatches(draw.context, old(draw.context)))
        && (env.hasFillColor(c) || FillMatches(draw.context, old(draw.context)))
    {
      var notSmoothing;
      p, notSmoothing := draw.CreatePen(ctx, env);
      b := draw.CreateBrush(ctx, env);
      var n := Normalize(r);
      ret := false;
      if b.Some? && n.w > 0.0 && n.h > 0.0 {
        output := output + [FillRectangle(b.value, n)];
        ret := true;
      }
      if p.Some? && n.w > 0.0 && n.h > 0.0 {
        output := output + [DrawRectangle(p.value, n)];
        ret := true;
      }
    }

    /** `rawEllipse(ctx, x, y, w, h)`: as rawRect, with the ellipse inscribed
        in the normalised rectangle. */
    method RawEllipse(ctx: Option<GiContext>, r: Rect, env: Env) returns (ret: bool, p: Option<Pen>, b: Option<Brush>)
      modifies draw, this
      ensures draw.path == old(draw.path)
      ensures var n := Normalize(r);
        output == old(output) + Drawn(true, b, p, n)
      ensures ret <==> (p.Some? || b.Some?) && r.w != 0.0 && r.h != 0.0
      ensures var c := if ctx.Some? then ctx.value else old(draw.context);
        && draw.penNull == env.isNullLine(c) && draw.brushNull == !env.hasFillColor(c)
        && (p.Some? <==> !env.isNullLine(c)) && (b.Some? <==> env.hasFillColor(c))
        && (p.Some? ==> p == draw.pen && LineMatches(draw.context, c))
        && (b.Some? ==> b == draw.brush && FillMatches(draw.context, c))
        && (p.None? ==> draw.pen == old(draw.pen))
        && (b.None? ==> draw.brush == old(draw.brush))
        && (p.Some? ==> p == if old(draw.pen).Some? && LineMatches(old(draw.context), c) then old(draw.pen) else Some(NewPen(c, env)))
        && (b.Some? ==> b == if old(draw.brush).Some? && FillMatches(old(draw.context), c) then old(draw.brush) else Some(NewBrush(c, env)))
        && (!env.isNullLine(c) || LineMatches(draw.context, old(draw.context)))
        && (env.hasFillColor(c) || FillMatches(draw.context, old(draw.context)))
    {
      var notSmoothing;
      p, notSmoothing := draw.CreatePen(ctx, env);
      b := draw.CreateBrush(ctx, env);
      var n := Normalize(r);
      ret := false;
      if b.Some? && n.w > 0.0 && n.h > 0.0 {
        output := output + [FillEllipse(b.value, n)];
        ret := true;
      }
      if p.Some? && n.w > 0.0 && n.h > 0.0 {
        output := output + [DrawEllipse(p.value, n)];
        ret := true;
      }
    }

    /** `rawBezierTo(pxs, count)`: with a path open, the cubics of
        BezierGroups from the path's last point are appended; without one
        nothing happens and the result is false. */
    method RawBezierTo(pxs: seq<Point2d>) returns (ret: bool)
      modifies draw
      ensures draw.context == old(draw.context) && draw.pen == old(draw.pen) && draw.brush == old(draw.brush)
      ensures draw.penNull == old(draw.penNull) && draw.brushNull == old(draw.brushNull)
      ensures ret <==> old(draw.path).Some?
      ensures draw.path == if old(draw.path).Some?
        then Some(old(draw.path).value + BezierGroups(LastPoint(old(draw.path).value), pxs)) else None
    {
      ret := false;
      if draw.path.Some? {
        ret := true;
        var path := AppendBeziers(draw.path.value, pxs);
        draw.path := Some(path);
      }
    }

    /** `rawPath(ctx, count, pxs, types)`: refuses missing arrays and fewer
        than two points; otherwise decodes the first `count` elements into a
        new path and, when that succeeds, fills it when the context has a
        fill colour and outlines it unless its line is null.  A missing ctx
        means the canvas' current context, which is the cached one
        (`getCurrentContext`).  The result is the decoding's. */
    method RawPath(ctx: Option<GiContext>, count: int, pxs: Option<seq<Point2d>>, types: Option<seq<byte>>, env: Env)
      returns (ret: bool)
      requires pxs.Some? && types.Some? ==> count <= |pxs.value| && count <= |types.value|
      modifies draw, this
      ensures draw.path == old(draw.path)
      ensures !(pxs.Some? && types.Some? && count > 1) ==> !ret && output == old(output) && draw.context == old(draw.context)
      ensures !(pxs.Some? && types.Some? && count > 1) ==>
        draw.pen == old(draw.pen) && draw.brush == old(draw.brush) &&
        draw.penNull == old(draw.penNull) && draw.brushNull == old(draw.brushNull)
      ensures pxs.Some? && types.Some? && count > 1 ==>
        var decoded := Decode(pxs.value[..count], types.value[..count], Origin(), false);
        var c := if ctx.Some? then ctx.value else old(draw.context);
        && ret == decoded.0
        && (!ret ==> (draw.pen == old(draw.pen) && draw.brush == old(draw.brush) &&
              draw.penNull == old(draw.penNull) && draw.brushNull == old(draw.brushNull)))
        && (ret ==> draw.penNull == env.isNullLine(c))
        && (ret && env.hasFillColor(c) ==> draw.brushNull == !env.hasFillColor(c))
        && (ret && !env.hasFillColor(c) ==> (draw.brush == old(draw.brush) && draw.brushNull == old(draw.brushNull) &&
              FillMatches(draw.context, old(draw.context))))
        && (ret && env.isNullLine(c) ==> draw.pen == old(draw.pen) && LineMatches(draw.context, old(draw.context)))
        && (decoded.0 && !env.isNullLine(c) ==>
              draw.pen == if old(draw.pen).Some? && LineMatches(old(draw.context), c) then old(draw.pen) else Some(NewPen(c, env)))
        && (decoded.0 && env.hasFillColor(c) ==>
              draw.brush == if old(draw.brush).Some? && FillMatches(old(draw.context), c) then old(draw.brush) else Some(NewBrush(c, env)))
        && (!decoded.0 ==> output == old(output) && draw.context == old(draw.context))
        && (decoded.0 && env.hasFillColor(c) ==> draw.brush.Some? && FillMatches(draw.context, c))
        && (decoded.0 && !env.isNullLine(c) ==> draw.pen.Some? && LineMatches(draw.context, c))
        && (decoded.0 ==> (output == old(output)
              + (if env.hasFillColor(c) then [FillPath(draw.brush.value, decoded.1)] else [])
              + (if !env.isNullLine(c) then [DrawPath(draw.pen.value, decoded.1)] else [])))
    {
      ret := false;
      if pxs.Some? && types.Some? && count > 1 {
        var c := if ctx.Some? then ctx.value else draw.context;
        var path;
        ret, path := AddPolyToPath([], pxs.value[..count], types.value[..count]);
        ghost var decoded := Decode(pxs.value[..count], types.value[..count], Origin(), false);
        assert [] + decoded.1 == decoded.1;
        ghost var before := output;
        if ret {
          if env.hasFillColor(c) {
            var b := draw.CreateBrush(Some(c), env);
            if b.Some? {
              output := output + [FillPath(b.value, path)];
              ret := true;
            }
          }
          var p, _ := draw.CreatePen(Some(c), env);
          if p.Some? {
            output := output + [DrawPath(p.value, path)];
            ret := true;
          }
          assert output == before
            + (if env.hasFillColor(c) then [FillPath(draw.brush.value, path)] else [])
            + (if !env.isNullLine(c) then [DrawPath(draw.pen.value, path)] else []);
        }
      }
    }
  }
}
