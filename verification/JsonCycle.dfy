/** Printing a tree of items and parsing the text again, by the code of both directions. */
module JsonCycle {
  import opened JsonTree
  import opened JsonText
  import opened JsonItems
  import opened JsonPrintLaws
  import opened JsonRoundTrip
  import opened JsonParser
  import opened JsonPrinter
  import opened JsonTwoPass
  import opened PrintBuffer

  /** The copy that the text yields: new items that stand for the same tree. */
  method ParseBack(out: array<char>, ghost v: Json, fmt: bool, strict: bool, ghost t: string)
      returns (copy: Item, ghost g: Foot)
    requires Printable(v) && t == Print(v, 0, fmt) && HoldsText(out, t)
    ensures copy == g.node && Stands(g, v) && forall x | x in Nodes(g) :: fresh(x)
  {
    PrintNulFree(v, 0, fmt);
    TextRoundTrip(v, 0, fmt, strict, t);
    hide Print, Stands, ParseText;
    var s := TextOf(out, t);
    var r;
    copy, r, g := ParseItem(s, strict);
  }

  /** `cJSON_Print` or `cJSON_PrintUnformatted`, and `cJSON_ParseWithOpts`. */
  method CopyUnbuffered(item: Item, fmt: bool, strict: bool, ghost f: Foot, ghost v: Json) returns (copy: Item, ghost g: Foot)
    requires item == f.node && Stands(f, v) && Printable(v)
    ensures copy == g.node && Stands(g, v) && forall x | x in Nodes(g) :: fresh(x)
  {
    var out := PrintText(item, fmt, f, v);
    copy, g := ParseBack(out, v, fmt, strict, Print(v, 0, fmt));
  }

  /** `cJSON_PrintBuffered`, and `cJSON_ParseWithOpts`. */
  method CopyBuffered(item: Item, prebuffer: nat, fmt: bool, strict: bool, ghost f: Foot, ghost v: Json)
      returns (copy: Item, ghost g: Foot)
    requires item == f.node && Stands(f, v) && Printable(v) && |Print(v, 0, fmt)| + SPARE <= LARGEST
    ensures copy == g.node && Stands(g, v) && forall x | x in Nodes(g) :: fresh(x)
  {
    var out := PrintBuffered(item, prebuffer, fmt, f, v);
    copy, g := ParseBack(out, v, fmt, strict, Print(v, 0, fmt));
  }
}
