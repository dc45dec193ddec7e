// Output to a FILE*: the bytes written so far.
module CStdio {
  import opened ByteStrings

  class OutFile {
    var text: bytes

    constructor ()
      ensures text == []
    {
      text := [];
    }

    method PutChar(c: byte)
      modifies this
      ensures text == old(text) + [c]
    {
      text := text + [c];
    }

    /** printf of a string argument or of a literal. */
    method PutText(s: bytes)
      modifies this
      ensures text == old(text) + s
    {
      text := text + s;
    }
  }
}
