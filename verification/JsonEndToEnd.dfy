/** Printer, output, source, buffer and parser together. */
module JsonEndToEnd {
  import opened BasicParser
  import opened IoStream
  import opened JsonSyntax
  import opened JsonParser
  import opened JsonPrinter
  import opened JsonRoundTrip

  /** Whatever is printed, in writes of any size, is read back, in chunks of any size, as the same tree. */
  method PrintThenParse(v: Json, human: bool, tail: string, room: nat, fails: bool)
    returns (written: bool, status: Status, dst: Json)
    requires WellFormed(v) && Delimited(v, tail)
    ensures written <==> |Print(human, v, 0)| <= room
    ensures written ==> status == Parsed && dst == v
  {
    var out := new OutputStream(room);
    written := Serialize(out, human, v, 0);
    status, dst := Error, Null;
    if written {
      assert "" + Print(human, v, 0) == Print(human, v, 0);
      var src := new InputStream(out.written + tail, fails);
      var p := new BasicParser(src);
      ValueRoundTrip(human, v, 0, tail);
      status, dst := ParseJson(p);
    }
  }
}
