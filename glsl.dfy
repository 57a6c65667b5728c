/** libcurv/geom/glsl.cc: `glsl_function_export` writes the shape's `dist`
    and `colour` functions as two GLSL function definitions (section 6.1,
    "Function Definitions", of The OpenGL Shading Language), driving one
    Geometry Compiler for both. */
module Glsl {
  import opened Stream
  import opened GeometryCompiler
  import opened Shape

  const DistSignature: string := "float dist"
  const ColourSignature: string := "vec3 colour"

  /** The opening of a definition: its signature, the point parameter and
      the opening brace. */
  function Header(signature: string, param: GLValue): string
  {
    signature + "(vec4 " + param.name + ")\n{\n"
  }

  /** The closing of a definition: returns the pass's result. */
  function ReturnLine(result: GLValue): string
  {
    "  return " + result.name + ";\n}\n"
  }

  /** One complete definition around what a pass emitted. */
  function Definition(signature: string, param: GLValue, e: Emission): string
  {
    Header(signature, param) + e.code + ReturnLine(e.result)
  }

  /** The calls made on the one compiler, in order: the dist parameter, the
      dist pass, the colour parameter, the colour pass. */
  datatype Passes = Passes(distParam: GLValue, dist: Emission,
                           colourParam: GLValue, colour: Emission)

  /** The run of a fresh compiler (counter 0) over a recognised shape. */
  function Run(shape: ShapeProgram, naming: nat -> string): Passes
    requires shape.distFun.Some? && shape.colourFun.Some?
  {
    var p := GLValue(naming(0), Vec4);
    var d := shape.distFun.value(p, 1);
    var q := GLValue(naming(d.valcount), Vec4);
    var c := shape.colourFun.value(q, d.valcount + 1);
    Passes(p, d, q, c)
  }

  /** Everything `glsl_function_export` appends to the stream. */
  function ExportText(shape: ShapeProgram, naming: nat -> string): string
    requires shape.distFun.Some? && shape.colourFun.Some?
  {
    var run := Run(shape, naming);
    Definition(DistSignature, run.distParam, run.dist)
      + Definition(ColourSignature, run.colourParam, run.colour)
  }

  /** One `out << signature << "(vec4 " << param << ")\n{\n"` statement. */
  method WriteHeader(out: OStream, signature: string, param: GLValue)
    modifies out
    ensures out.text == old(out.text) + Header(signature, param)
  {
    out.Write(signature + "(vec4 ");
    out.Write(param.name);
    out.Write(")\n{\n");
  }

  /** One `out << "  return " << result << ";\n}\n"` statement. */
  method WriteReturn(out: OStream, result: GLValue)
    modifies out
    ensures out.text == old(out.text) + ReturnLine(result)
  {
    out.Write("  return ");
    out.Write(result.name);
    out.Write(";\n}\n");
  }

  /** Writes `float dist(vec4 P){ ... return R; }` and then
      `vec3 colour(vec4 Q){ ... return S; }`, with one compiler allocating P
      and Q and compiling both bodies. */
  method GlslFunctionExport(shape: ShapeProgram, out: OStream, naming: nat -> string)
    requires shape.Valid() && shape.IsShape()
    modifies out
    ensures out.text == old(out.text) + ExportText(shape, naming)
  {
    ghost var run := Run(shape, naming);
    var gl := new GLCompiler(out, naming);

    var distParam := gl.NewValue(Vec4);
    WriteHeader(out, DistSignature, distParam);
    var distResult := GLDist(shape, distParam, gl);
    WriteReturn(out, distResult);
    assert out.text == old(out.text) + Definition(DistSignature, run.distParam, run.dist);
    assert gl.valcount == run.dist.valcount;

    var colourParam := gl.NewValue(Vec4);
    WriteHeader(out, ColourSignature, colourParam);
    var colourResult := GLColour(shape, colourParam, gl);
    WriteReturn(out, colourResult);
  }

  /** A definition reads header, then exactly the emitted statements, then
      the return line carrying the pass's result. */
  lemma DefinitionLayout(signature: string, param: GLValue, e: Emission)
    ensures var d, h := Definition(signature, param, e), Header(signature, param);
      && |d| == |h| + |e.code| + |ReturnLine(e.result)|
      && d[..|h|] == h
      && d[|h|..|h| + |e.code|] == e.code
      && d[|h| + |e.code|..] == ReturnLine(e.result)
  {
    var d, h := Definition(signature, param, e), Header(signature, param);
    assert d == h + e.code + ReturnLine(e.result);
  }

  /** The output is the complete dist definition followed by the complete
      colour definition: the dist definition is written completely before the
      colour definition begins. */
  lemma ExportLayout(shape: ShapeProgram, naming: nat -> string)
    requires shape.Valid() && shape.IsShape()
    ensures var t, run := ExportText(shape, naming), Run(shape, naming);
      var dd := Definition(DistSignature, run.distParam, run.dist);
      var cd := Definition(ColourSignature, run.colourParam, run.colour);
      && |t| == |dd| + |cd|
      && t[..|dd|] == dd
      && t[|dd|..] == cd
  {
  }

  /** Where each piece lies in the output: the dist header, the dist body,
      the dist return line, the colour header, the colour body and the
      colour return line, back to back in that order. */
  lemma ExportPlacement(shape: ShapeProgram, naming: nat -> string)
    requires shape.Valid() && shape.IsShape()
    ensures var t, run := ExportText(shape, naming), Run(shape, naming);
      var h1, b1, r1 := Header(DistSignature, run.distParam), run.dist.code, ReturnLine(run.dist.result);
      var h2, b2, r2 := Header(ColourSignature, run.colourParam), run.colour.code, ReturnLine(run.colour.result);
      var e1 := |h1| + |b1| + |r1|;
      && |t| == e1 + |h2| + |b2| + |r2|
      && t[..|h1|] == h1
      && t[|h1|..|h1| + |b1|] == b1
      && t[|h1| + |b1|..e1] == r1
      && t[e1..e1 + |h2|] == h2
      && t[e1 + |h2|..e1 + |h2| + |b2|] == b2
      && t[e1 + |h2| + |b2|..] == r2
  {
    var t, run := ExportText(shape, naming), Run(shape, naming);
    var dd := Definition(DistSignature, run.distParam, run.dist);
    var cd := Definition(ColourSignature, run.colourParam, run.colour);
    DefinitionLayout(DistSignature, run.distParam, run.dist);
    DefinitionLayout(ColourSignature, run.colourParam, run.colour);
    assert t == dd + cd;
    var h1 := Header(DistSignature, run.distParam);
    var h2 := Header(ColourSignature, run.colourParam);
    var e1 := |dd|;
    assert t[..|h1|] == dd[..|h1|];
    assert t[|h1|..|h1| + |run.dist.code|] == dd[|h1|..|h1| + |run.dist.code|];
    assert t[|h1| + |run.dist.code|..e1] == dd[|h1| + |run.dist.code|..];
    assert t[e1..e1 + |h2|] == cd[..|h2|];
    assert t[e1 + |h2|..e1 + |h2| + |run.colour.code|] == cd[|h2|..|h2| + |run.colour.code|];
    assert t[e1 + |h2| + |run.colour.code|..] == cd[|h2| + |run.colour.code|..];
  }

  /** A pass that never lowers the value counter. */
  ghost predicate Advances(pass: SymbolicPass)
  {
    forall p, n :: pass(p, n).valcount >= n
  }

  /** A naming that gives different numbers different texts. */
  ghost predicate Injective(naming: nat -> string)
  {
    forall i, j :: naming(i) == naming(j) ==> i == j
  }

  /** Because one compiler serves both passes, the colour parameter is
      numbered from the counter the dist pass left, which is past the dist
      parameter's number; so when the dist pass never lowers the counter and
      names are distinct per number, the two parameters never share a name.
      (Two separate compilers would both start the parameter at number 0.) */
  lemma ParamsDistinct(shape: ShapeProgram, naming: nat -> string)
    requires shape.Valid() && shape.IsShape()
    requires Advances(shape.distFun.value)
    requires Injective(naming)
    ensures Run(shape, naming).distParam.ty == Vec4 && Run(shape, naming).colourParam.ty == Vec4
    ensures Run(shape, naming).colourParam.name != Run(shape, naming).distParam.name
  {
    var run := Run(shape, naming);
    assert run.dist.valcount >= 1;
  }
}
