/** Printing followed by parsing. */
module Json {
  import opened JsonText
  import opened JsonString
  import opened JsonGrammar
  import opened JsonPrinted
  import JsonPrint
  import JsonParse

  /** The printed text means the value. */
  lemma {:induction false} PrintedMeans(read: Strtod, v: Json, format: bool, whole: bool)
    requires Steady(read, v)
    ensures JsonParse.Document(read, Text(v, format, 0), whole, v)
  {
    hide Text, Stands, Steady;
    var t := Text(v, format, 0);
    var c := JsonParse.Buffer(t);
    TextStarts(v, format, 0);
    Shown(t);
    TextStands(read, c, 0, v, format, 0);
    assert JsonParse.DocumentAt(read, c, whole, v, 0, |t|);
  }

  lemma {:induction false} Shown(t: seq<Char>)
    ensures At(JsonParse.Buffer(t), 0, t) && JsonParse.Buffer(t)[|t|] == 0
  {}

  /**
   * Every value whose numbers the C library reads back survives `cJSON_Print` or
   * `cJSON_PrintUnformatted` followed by `cJSON_Parse`, exactly up to the nesting limit and
   * to the largest buffer.
   */
  method RoundTrip(v: Json, format: bool, whole: bool, read: Strtod) returns (ok: bool, w: Json)
    ensures Steady(read, v) ==> (ok <==> Nesting(v) <= LIMIT && |Text(v, format, 0)| + 2 <= JsonPrint.INT_MAX)
    ensures Steady(read, v) && ok ==> w == v
  {
    hide Text, Nesting, Steady, JsonParse.Document;
    var printer := new JsonPrint.Printer(format, false, 256);
    var printed := printer.PrintValue(v);
    if !printed {
      return false, Null;
    }
    assert printer.out == Text(v, format, 0);
    ok, w := JsonParse.Parse(printer.out, whole, read);
    if Steady(read, v) {
      PrintedMeans(read, v, format, whole);
      if u :| JsonParse.Document(read, Text(v, format, 0), whole, u) && Nesting(u) <= LIMIT {
        JsonParse.DocumentOnce(read, Text(v, format, 0), whole, u, v);
      }
      if ok {
        JsonParse.DocumentOnce(read, Text(v, format, 0), whole, w, v);
      }
    }
  }
}
