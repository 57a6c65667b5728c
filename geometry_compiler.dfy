/** The part of the Geometry Compiler (`GL_Compiler`) that
    `glsl_function_export` relies on. Its real code is not part of this
    model: how a new value is named and what a symbolic pass emits are
    parameters, and only the way the compiler's state is threaded is fixed. */
module GeometryCompiler {
  import opened Stream

  /** Shader types: boolean, scalar, and 2-, 3-, 4-vectors. */
  datatype GLType = Bool | Num | Vec2 | Vec3 | Vec4

  /** A symbolic shader value and the text that stands for it. */
  datatype GLValue = GLValue(name: string, ty: GLType)

  /** What one symbolic pass does: the statements it appends, the value it
      returns and the compiler's value counter afterwards. */
  datatype Emission = Emission(code: string, result: GLValue, valcount: nat)

  /** A symbolic pass over a captured function: from the parameter value and
      the value counter before the pass to what it emits. */
  type SymbolicPass = (GLValue, nat) -> Emission

  class GLCompiler {
    /** The stream the compiler writes its statements to; the same stream
        the caller writes around them. */
    const out: OStream
    /** The textual form of the value with a given number. */
    const naming: nat -> string
    /** How many values have been allocated so far. */
    var valcount: nat

    constructor (out: OStream, naming: nat -> string)
      ensures this.out == out && this.naming == naming
      ensures valcount == 0
    {
      this.out := out;
      this.naming := naming;
      valcount := 0;
    }

    /** `newvalue`: a value of the requested type; the counter advances and
        nothing is written. */
    method NewValue(ty: GLType) returns (v: GLValue)
      modifies this
      ensures v.ty == ty && v.name == naming(old(valcount))
      ensures valcount == old(valcount) + 1
    {
      v := GLValue(naming(valcount), ty);
      valcount := valcount + 1;
    }

    /** Runs a symbolic pass on `param`: its statements are appended to the
        shared stream and its result is returned. */
    method Compile(pass: SymbolicPass, param: GLValue) returns (r: GLValue)
      modifies this, out
      ensures out.text == old(out.text) + pass(param, old(valcount)).code
      ensures r == pass(param, old(valcount)).result
      ensures valcount == pass(param, old(valcount)).valcount
    {
      var e := pass(param, valcount);
      out.Write(e.code);
      valcount := e.valcount;
      r := e.result;
    }
  }
}
