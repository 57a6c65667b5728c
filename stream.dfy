/** The output side of `std::ostream` as the core uses it: text that is only
    ever appended to. */
module Stream {

  class OStream {
    /** Everything written to the stream so far. */
    var text: string

    constructor ()
      ensures text == ""
    {
      text := "";
    }

    /** `out << s`: appends `s` and changes nothing else. */
    method Write(s: string)
      modifies this
      ensures text == old(text) + s
    {
      text := text + s;
    }
  }
}
