/** libcurv/geom/shape.h: axis-aligned bounding boxes and the recognised
    shape whose `dist` and `colour` functions are compiled to GLSL. */
module Shape {
  import opened ExtendedReal
  import opened Wrappers
  import opened GeometryCompiler

  /** `glm::dvec2` / `glm::dvec3` of differences. */
  datatype DVec2 = DVec2(x: Diff, y: Diff)
  datatype DVec3 = DVec3(x: Diff, y: Diff, z: Diff)

  /** Axis-aligned bounding box. */
  datatype BBox = BBox(xmin: ExtReal, ymin: ExtReal, zmin: ExtReal,
                       xmax: ExtReal, ymax: ExtReal, zmax: ExtReal)
  {
    /** `xmin >= xmax || ymin >= ymax` */
    predicate Empty2()
    {
      Le(xmax, xmin) || Le(ymax, ymin)
    }

    /** `xmin >= xmax || ymin >= ymax || zmin >= zmax` */
    predicate Empty3()
    {
      Le(xmax, xmin) || Le(ymax, ymin) || Le(zmax, zmin)
    }

    /** Some minimum of x, y is -INFINITY or some maximum is +INFINITY. */
    predicate Infinite2()
    {
      xmin == NegInf || ymin == NegInf || xmax == PosInf || ymax == PosInf
    }

    /** As `Infinite2`, over all three axes. */
    predicate Infinite3()
    {
      xmin == NegInf || ymin == NegInf || zmin == NegInf ||
      xmax == PosInf || ymax == PosInf || zmax == PosInf
    }

    /** `(xmax - xmin, ymax - ymin)` */
    function Size2(): DVec2
    {
      DVec2(Sub(xmax, xmin), Sub(ymax, ymin))
    }

    /** `(xmax - xmin, ymax - ymin, zmax - zmin)` */
    function Size3(): DVec3
    {
      DVec3(Sub(xmax, xmin), Sub(ymax, ymin), Sub(zmax, zmin))
    }
  }

  /** A box empty in the xy-plane is empty in space. */
  lemma Empty2ImpliesEmpty3(b: BBox)
    ensures b.Empty2() ==> b.Empty3()
  {
  }

  /** A box unbounded in the xy-plane is unbounded in space. */
  lemma Infinite2ImpliesInfinite3(b: BBox)
    ensures b.Infinite2() ==> b.Infinite3()
  {
  }

  /** `size2` is the xy part of `size3`. */
  lemma Size2IsPrefixOfSize3(b: BBox)
    ensures b.Size2().x == b.Size3().x && b.Size2().y == b.Size3().y
  {
  }

  /** A box is empty in the xy-plane exactly when one of its xy sizes is not
      a positive number (zero, negative or NaN); so a box that is not empty
      has both sizes positive. */
  lemma Empty2IffSize2NotPositive(b: BBox)
    ensures b.Empty2() <==> !(Positive(b.Size2().x) && Positive(b.Size2().y))
  {
    SubPositiveIffLt(b.xmin, b.xmax);
    SubPositiveIffLt(b.ymin, b.ymax);
  }

  /** The three-dimensional counterpart of `Empty2IffSize2NotPositive`. */
  lemma Empty3IffSize3NotPositive(b: BBox)
    ensures b.Empty3() <==>
      !(Positive(b.Size3().x) && Positive(b.Size3().y) && Positive(b.Size3().z))
  {
    SubPositiveIffLt(b.xmin, b.xmax);
    SubPositiveIffLt(b.ymin, b.ymax);
    SubPositiveIffLt(b.zmin, b.zmax);
  }

  /** Over extended reals, a box is infinite in the xy-plane exactly when one
      of its xy sizes is +INFINITY or NaN. A maximum of -INFINITY or a minimum
      of +INFINITY alone does not make it infinite. */
  lemma Infinite2IffSize2Unbounded(b: BBox)
    ensures b.Infinite2() <==> (Unbounded(b.Size2().x) || Unbounded(b.Size2().y))
  {
    SubUnboundedIff(b.xmin, b.xmax);
    SubUnboundedIff(b.ymin, b.ymax);
  }

  /** The three-dimensional counterpart of `Infinite2IffSize2Unbounded`. */
  lemma Infinite3IffSize3Unbounded(b: BBox)
    ensures b.Infinite3() <==>
      (Unbounded(b.Size3().x) || Unbounded(b.Size3().y) || Unbounded(b.Size3().z))
  {
    SubUnboundedIff(b.xmin, b.xmax);
    SubUnboundedIff(b.ymin, b.ymax);
    SubUnboundedIff(b.zmin, b.zmax);
  }

  /** `Shape_Program`: the dimension flags, the bounding box and, once
      recognised, the two captured functions, each given as the symbolic pass
      the Geometry Compiler runs over it. */
  datatype ShapeProgram = ShapeProgram(
    is2d: bool, is3d: bool, bbox: BBox,
    distFun: Option<SymbolicPass>, colourFun: Option<SymbolicPass>)
  {
    /** `is_shape()`: recognition has set a dimension flag. */
    predicate IsShape()
    {
      is2d || is3d
    }

    /** A recognised shape has both of its functions captured. */
    predicate Valid()
    {
      IsShape() ==> distFun.Some? && colourFun.Some?
    }
  }

  /** A shape program before `recognize` has succeeded: no flag set, nothing
      captured. */
  function Unrecognized(bbox: BBox): (s: ShapeProgram)
    ensures !s.IsShape() && s.Valid()
    ensures s.distFun.None? && s.colourFun.None?
  {
    ShapeProgram(false, false, bbox, None, None)
  }

  /** `gl_dist`: runs the Geometry Compiler over the captured `dist`
      function with `p` as its point parameter. */
  method GLDist(shape: ShapeProgram, p: GLValue, gl: GLCompiler) returns (r: GLValue)
    requires shape.distFun.Some?
    modifies gl, gl.out
    ensures gl.out.text == old(gl.out.text) + shape.distFun.value(p, old(gl.valcount)).code
    ensures r == shape.distFun.value(p, old(gl.valcount)).result
    ensures gl.valcount == shape.distFun.value(p, old(gl.valcount)).valcount
  {
    r := gl.Compile(shape.distFun.value, p);
  }

  /** `gl_colour`: runs the Geometry Compiler over the captured `colour`
      function with `q` as its point parameter. */
  method GLColour(shape: ShapeProgram, q: GLValue, gl: GLCompiler) returns (r: GLValue)
    requires shape.colourFun.Some?
    modifies gl, gl.out
    ensures gl.out.text == old(gl.out.text) + shape.colourFun.value(q, old(gl.valcount)).code
    ensures r == shape.colourFun.value(q, old(gl.valcount)).result
    ensures gl.valcount == shape.colourFun.value(q, old(gl.valcount)).valcount
  {
    r := gl.Compile(shape.colourFun.value, q);
  }
}
