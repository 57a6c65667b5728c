# curv core: list printing, GLSL function export, bounding boxes

This project models three pieces of the curv shape language implementation in
Dafny and proves properties of them:

- **List printing** (`List_Base::print`). A list is written to an output
  stream as `[`, then the elements' printed forms separated by `,`, then `]`.
  The stream is an append-only `OStream` object. How an element prints itself
  is a parameter `show: T -> string`. `ListBase.Print` keeps the source's loop
  and is proved to append exactly `ListText(elems, show)`. The lemmas then show
  what that text looks like: brackets, separators, element order and length.
  They also show that the text can be read back (`ParseList`).
- **GLSL export** (`glsl_function_export`). One `GL_Compiler` owns a value
  counter and writes to the same stream as its caller. The export asks it for
  a `vec4` parameter value and writes the `float dist(vec4 P)` header. It then
  runs the symbolic `dist` pass and writes `return R;`. The same steps follow
  for `vec3 colour(vec4 Q)`. These are function definitions in the sense of
  section 6.1 of The OpenGL Shading Language. The method is proved to append
  exactly `ExportText`. The lemmas give the layout of that text: which piece
  lies where, which value goes to which pass, and how the compiler state flows
  from the dist pass into the colour pass.
- **Bounding boxes and `is_shape`** (`BBox`, `Shape_Program`). Coordinates
  are extended reals (`NegInf | Fin(r) | PosInf`). Subtraction may give NaN
  (`Undefined`) for `inf - inf`. The emptiness and infiniteness predicates
  are checked against independent characterisations by the sizes, and the 2D
  forms are shown to imply the 3D forms.

The Geometry Compiler's own code is not part of this model. Two things stand
in for it:
- `naming: nat -> string` gives the textual form of the value with a given
  number.
- A `SymbolicPass = (GLValue, nat) -> Emission` per captured function maps
  the parameter value and the counter before the pass to three things: the
  statements appended, the result value and the counter afterwards.

Compilation is deterministic, so the output is a function of these
parameters.

The code (libcurv/geom/glsl.cc:19) creates one `GL_Compiler` and uses it
for both passes, so the colour parameter's number continues from where the dist pass
left the counter. `Glsl.ParamsDistinct` states a consequence of this.

## Model

| member | source | states |
|---|---|---|
| `Stream.OStream.Write` | curv/list.cc:10 | `out << s` appends `s` to the stream and changes nothing already written |
| `ListPrint.ListBase.Print` | curv/list.cc:7-16 | print only appends to the stream; what it appends is `[` + the element texts joined by `,` in index order + `]`; the list is unchanged |
| `ListPrint.JoinSnoc` | curv/list.cc:11-14 | one loop step: adding an element adds a `,` before it exactly when it is not the first |
| `ListPrint.EmptyListText` | curv/list.cc:10-15 | an empty list prints exactly `[]` |
| `ListPrint.SingletonListText` | curv/list.cc:11-15 | a one-element list prints `[` + its text + `]`, no comma |
| `ListPrint.ListTextBrackets` | curv/list.cc:10-15 | the output always begins with `[` and ends with `]` |
| `ListPrint.JoinLength` | curv/list.cc:11-14 | the joined part is the element texts plus one separator between neighbours |
| `ListPrint.ListTextLength` | curv/list.cc:10-15 | the output length is 2 + the element texts' lengths + (n-1 separators, 0 for the empty list) |
| `ListPrint.JoinCommas` | curv/list.cc:11-13 | the commas of the joined part are the n-1 separators plus those inside element texts |
| `ListPrint.ListTextCommas` | curv/list.cc:10-15 | the output holds exactly n-1 separator commas (none for the empty list) besides the elements' own commas |
| `ListPrint.JoinPlacement` | curv/list.cc:11-14 | element i's text sits at its offset; a `,` comes before it unless it is first and after it unless it is last |
| `ListPrint.ListTextPlacement` | curv/list.cc:10-15 | elements appear in index order, each opened by `[` (first) or `,` and closed by `,` or the final `]`: no leading or trailing separator |
| `ListPrint.SplitJoin` | curv/list.cc:11-14 | for a non-empty list, splitting the joined part at commas gives back the element texts when they contain no comma |
| `ListPrint.ParseListText` | curv/list.cc:10-15 | round trip: when no element text holds a comma (and a lone element's text is not empty), reading the printed list back gives exactly the element texts in order |
| `ExtendedReal.Le` | libcurv/geom/shape.h:33 | the doubles' `<=` (so `a >= b` is `Le(b, a)`) on finite values and the two infinities |
| `ExtendedReal.Sub` | libcurv/geom/shape.h:47 | the doubles' `-` on finite values and infinities: `inf - inf` of equal signs is NaN (`Undefined`), otherwise an infinite operand decides the sign |
| `Shape.BBox.Empty2` | libcurv/geom/shape.h:32-34 | `xmin >= xmax` or `ymin >= ymax` |
| `Shape.BBox.Empty3` | libcurv/geom/shape.h:35-37 | `xmin >= xmax`, `ymin >= ymax` or `zmin >= zmax` |
| `Shape.BBox.Infinite2` | libcurv/geom/shape.h:38-41 | `xmin` or `ymin` is -inf, or `xmax` or `ymax` is +inf |
| `Shape.BBox.Infinite3` | libcurv/geom/shape.h:42-45 | some minimum is -inf or some maximum is +inf, over all three axes |
| `Shape.BBox.Size2` | libcurv/geom/shape.h:46-48 | the pair `(xmax - xmin, ymax - ymin)` |
| `Shape.BBox.Size3` | libcurv/geom/shape.h:49-51 | the triple `(xmax - xmin, ymax - ymin, zmax - zmin)` |
| `Shape.ShapeProgram.IsShape` | libcurv/geom/shape.h:67 | `is_2d_ or is_3d_` |
| `ExtendedReal.LeTotalOrder` | libcurv/geom/shape.h:32-37 | the `>=` used by the emptiness tests is a total order on non-NaN doubles |
| `ExtendedReal.SubPositiveIffLt` | libcurv/geom/shape.h:46-51 | `hi - lo` is a positive number iff `lo < hi`, infinities included |
| `ExtendedReal.SubUnboundedIff` | libcurv/geom/shape.h:38-51 | over extended reals, `hi - lo` is +inf or NaN iff `lo` is -inf or `hi` is +inf |
| `Shape.Empty2ImpliesEmpty3` | libcurv/geom/shape.h:32-37 | `empty2` implies `empty3` |
| `Shape.Infinite2ImpliesInfinite3` | libcurv/geom/shape.h:38-45 | `infinite2` implies `infinite3` |
| `Shape.Size2IsPrefixOfSize3` | libcurv/geom/shape.h:46-51 | `size2` is the first two components of `size3` |
| `Shape.Empty2IffSize2NotPositive` | libcurv/geom/shape.h:32-34 | `empty2` iff `xmin >= xmax` or `ymin >= ymax`, iff some `size2` component is not a positive number; a box that is not `empty2` has both `size2` components positive |
| `Shape.Empty3IffSize3NotPositive` | libcurv/geom/shape.h:35-37 | `empty3` iff some `size3` component is not a positive number |
| `Shape.Infinite2IffSize2Unbounded` | libcurv/geom/shape.h:38-41 | over extended reals, `infinite2` iff some `size2` component is +inf or NaN; an `xmax` of -inf alone does not count |
| `Shape.Infinite3IffSize3Unbounded` | libcurv/geom/shape.h:42-45 | over extended reals, `infinite3` iff some `size3` component is +inf or NaN |
| `Shape.Unrecognized` | libcurv/geom/shape.h:66-67 | before `recognize` succeeds both flags are false, so `is_shape()` is false and nothing is captured |
| `Shape.GLDist` | libcurv/geom/shape.h:89-90 | `gl_dist` appends the dist pass's statements for exactly the given parameter to the compiler's stream and returns that pass's result |
| `Shape.GLColour` | libcurv/geom/shape.h:92-93 | `gl_colour` does the same for the colour pass |
| `GeometryCompiler.GLCompiler.constructor` | libcurv/geom/glsl.cc:19 | a new compiler writes to the caller's stream and starts with no values allocated |
| `GeometryCompiler.GLCompiler.NewValue` | libcurv/geom/glsl.cc:21 | `newvalue` returns a value of the requested type, advances the counter and writes nothing |
| `GeometryCompiler.GLCompiler.Compile` | libcurv/geom/glsl.cc:25 | a symbolic pass appends its statements to the shared stream and advances the shared counter |
| `Glsl.WriteHeader` | libcurv/geom/glsl.cc:22-24 | appends the signature, `(vec4 `, the parameter's text and `)\n{\n` |
| `Glsl.WriteReturn` | libcurv/geom/glsl.cc:26-28 | appends `  return ` + the result's text + `;\n}\n` |
| `Glsl.GlslFunctionExport` | libcurv/geom/glsl.cc:17-38 | only appends to the stream, and what it appends is the dist definition followed by the colour definition, built by one compiler |
| `Glsl.DefinitionLayout` | libcurv/geom/glsl.cc:22-28 | a definition is its header, then exactly what the pass emitted, then the return line of that pass's result |
| `Glsl.ExportLayout` | libcurv/geom/glsl.cc:19-37 | the output is the complete dist definition followed by the complete colour definition: dist is finished before colour begins |
| `Glsl.ParamsDistinct` | libcurv/geom/glsl.cc:19-30 | one compiler serves both passes, so the colour parameter is numbered past the dist parameter: when the dist pass never lowers the counter and names differ per number, the two `vec4` parameters have different names |
| `Glsl.ExportPlacement` | libcurv/geom/glsl.cc:21-37 | dist header, dist body, dist return line, colour header, colour body, colour return line lie back to back in that order |

## Left out

- Element printing (`array_[i].print(out)`) is the parameter `show`: each element's printed text is one string appended to the stream.
- The code of `GL_Compiler`, `newvalue`, `gl_dist` and `gl_colour`: it is not part of this model. Value names come from the parameter `naming`, and pass output from `SymbolicPass` functions. No claim is made about name freshness or the format of the emitted statements.
- GeometryCompiler.GLCompiler.NewValue: its counter step of one is a placeholder for the unseen `newvalue`.
- GeometryCompiler.GLCompiler.constructor: its starting count of 0 is a placeholder for the unseen `GL_Compiler` constructor. `Glsl.Run` names the dist parameter `naming(0)` and starts the dist pass at count 1 only because of these two placeholders. The layout lemmas do not depend on either number; `Glsl.ParamsDistinct` does not depend on the starting count. It depends on `newvalue` advancing the counter by at least one, and on one compiler threading the counter through both passes.
- Glsl.GlslFunctionExport: a symbolic pass always succeeds here, so the export always appends the whole `ExportText`. When curv's Geometry Compiler cannot compile a function, it fails, and glsl.cc:17-38 does not catch the failure. That path is not modelled, nor the partial output it leaves on the stream. A failing dist pass leaves the dist header and any statements already emitted. A failing colour pass leaves the whole dist definition, the colour header and any colour statements already emitted.
- The compiler's state is reduced to its value counter; any other state `GL_Compiler` keeps is not modelled.
- The `GL_Target::glsl` and `System` constructor arguments: they do not affect the modelled text.
- `BBox::from_value`, `Shape_Program::recognize`, `dist`, `colour`, `location` and the `Shape_Program(Program&)` constructor are declared without bodies. `Shape.Unrecognized` stands for the state before recognition.
- NaN coordinates, IEEE rounding and a finite difference that overflows to ±INFINITY in `size2`/`size3`: coordinates are extended reals, and only the NaN of `inf - inf` is modelled.
- curv/analyzer.h (`Environ::lookup`, `single_lookup`, `analyze_expr`), curv/context.h (`get_locations`), libcurv/program.h (`compile`, `nub`, `denotes`, `eval`): declarations only, with no bodies to model.
- libcurv/geom/glsl.h holds only the prototype of the export function modelled from glsl.cc.
- The textual `std::ostream` formatting of values is the value's `name` string.
