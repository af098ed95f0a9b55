/** The printer and the parser together. */
module JsonRoundTrip {
  import opened Bytes
  import opened JsonValue
  import opened JsonReader
  import opened JsonText
  import JsonParser
  import JsonPrinter

  /** The terminator counts as white space, and skipping stops on it all the same. */
  lemma StopsOnTerminator(text: bytes)
    ensures SkipSpace(text + [0], |text|) == |text|
  {}

  /** A printed text with its terminator, parsed with the terminator required, is the value
      again, and the parse ends on the terminator. */
  lemma RoundTripTerminated(v: Value, fmt: bool)
    requires Printable(v) && Height(v) <= NESTING_LIMIT
    ensures ReadDocument(JsonText.Text(v, fmt, 0) + [0], true) == Parsed(v, |JsonText.Text(v, fmt, 0)|)
  {
    hide JsonText.Text, Printable, Height, ReadValue, SkipSpace, SkipBom;
    RoundTrip(v, fmt, [0]);
    StopsOnTerminator(JsonText.Text(v, fmt, 0));
  }

  /** cJSON_Print and cJSON_ParseWithLengthOpts, one after the other. */
  method PrintThenParse(item: Value, fmt: bool) returns (ok: bool, back: Value)
    requires Printable(item)
    ensures ok <==> Height(item) <= NESTING_LIMIT && |JsonText.Text(item, fmt, 0)| + 2 <= INT_MAX
    ensures ok ==> back == item
  {
    hide JsonText.Text, Printable, Height, ReadDocument;
    var printed;
    ok, printed := JsonPrinter.Print(item, fmt);
    back := Null;
    if ok {
      RoundTripTerminated(item, fmt);
      var end;
      ok, back, end := JsonParser.ParseDocument(printed, true);
    }
  }
}
