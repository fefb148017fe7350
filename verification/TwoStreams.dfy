/** The JSON and the XML stream behind their common interface: two cursors, one meaning. */
module TwoStreams {
  import opened Options
  import opened KeyTree
  import opened KeyScript
  import JsonPointer
  import JsonStream
  import JsonTree
  import XmlStream
  import XmlTree

  const EMPTY_JSON := JsonStream.Stream(JsonPointer.JNull, [])
  const EMPTY_XML := XmlStream.Stream(XmlStream.XNode("", "", []), [])

  /** The same calls, on a fresh stream of either kind, store a tree and give the same tree back; the cursor
      returns to the document after writing and after reading. */
  lemma StreamsAgree(t: Tree, sc: Schema, named: bool)
    requires Writable(t, JsonFormat) && Writable(t, XmlFormat) && Conforms(t, sc)
    ensures var json := Write(JsonTree.JSON, EMPTY_JSON, t, named);
            var xml := Write(XmlTree.XML, EMPTY_XML, t, named);
            && json.keys == [] && xml.current == []
            && Read(JsonTree.JSON, json, sc, named) == (json, Some(t))
            && Read(XmlTree.XML, xml, sc, named) == (xml, Some(t))
  {
    JsonTree.RoundTrip(t, sc, named);
    XmlTree.RoundTrip(t, sc, named);
  }

  /** Any tree whose keys both formats can address is read back by a reader of its own schema. */
  lemma EveryTreeAgrees(t: Tree, named: bool)
    requires Writable(t, JsonFormat) && Writable(t, XmlFormat)
    ensures var json := Write(JsonTree.JSON, EMPTY_JSON, t, named);
            var xml := Write(XmlTree.XML, EMPTY_XML, t, named);
            && Read(JsonTree.JSON, json, SchemaOf(t), named) == (json, Some(t))
            && Read(XmlTree.XML, xml, SchemaOf(t), named) == (xml, Some(t))
  {
    ConformsToSchema(t);
    StreamsAgree(t, SchemaOf(t), named);
  }

  /** The size is that of the array only before its first row is opened: afterwards the XML stream says 0, and the
      JSON stream still says the size. */
  lemma SizeBeforeFirstRow(json: JsonStream.Stream, rows: seq<JsonPointer.Json>, xml: XmlStream.Stream, p: seq<nat>, name: string,
                           nodes: seq<XmlStream.XNode>, i: nat)
    requires JsonTree.HoldsRows(json, rows) && i < |rows| <= 0x7FFF_FFFF
    requires XmlTree.AtRows(xml, p, name, nodes) && i < |nodes| && nodes[i].name == name
    ensures JsonStream.Size(json) == |rows| && JsonStream.Size(JsonStream.OpenRow(json, i).0) == |rows|
    ensures XmlStream.Size(XmlStream.Stream(xml.document, p)) == |nodes| && XmlStream.Size(XmlStream.OpenRow(xml, i).0) == 0
  {
    JsonTree.RowsHeld(json, rows);
    JsonTree.OpenStoredRow(json, rows, i);
    JsonTree.RowsHeld(JsonStream.WithIndex(json, i), rows);
    XmlTree.ArrayNameIff(name);
    XmlTree.FindsArray(xml, p, name, nodes);
    XmlStream.PathExtends(xml.document, p, i);
  }
}
