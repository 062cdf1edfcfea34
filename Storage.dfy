/**
 * The tab-scoped session storage: a map from keys to strings. The row
 * collection lives, JSON-encoded, under the single key "table_data".
 */
module Storage {
  import opened Wrappers
  import opened Rows

  const TableKey := "table_data"

  /**
   * JSON.stringify and JSON.parse are library code and stay abstract: a codec
   * is an encoder and a decoder. `decode` yields None when the text does not
   * parse (JSON.parse throws) or does not hold an array of flat string-valued
   * objects.
   */
  datatype Codec = Codec(encode: seq<Row> -> string, decode: string -> Option<seq<Row>>)

  /** A collection of JavaScript objects: no row names a property twice. */
  ghost predicate Objects(rows: seq<Row>)
  {
    forall i :: 0 <= i < |rows| ==> DistinctKeys(rows[i])
  }

  /**
   * What the browser's JSON guarantees for arrays of flat string objects:
   * parsing the text of such a collection gives the collection back, that
   * text is never empty (it starts with '['), and whatever parses is such a
   * collection (a parsed object never holds a name twice).
   */
  ghost predicate ValidCodec(c: Codec)
  {
    && (forall rows: seq<Row> :: Objects(rows) ==> c.encode(rows) != "" && c.decode(c.encode(rows)) == Some(rows))
    && (forall text: string :: c.decode(text).Some? ==> Objects(c.decode(text).value))
  }

  /** `load_table_data`: the stored row collection, or the empty one as a fail-safe. */
  function LoadTableData(c: Codec, storage: map<string, string>): (rows: seq<Row>)
    ensures TableKey !in storage || storage[TableKey] == "" ==> rows == []
    ensures TableKey in storage && storage[TableKey] != "" && c.decode(storage[TableKey]).None? ==> rows == []
    ensures TableKey in storage && storage[TableKey] != "" && c.decode(storage[TableKey]).Some? ==>
              rows == c.decode(storage[TableKey]).value
  {
    if TableKey !in storage || storage[TableKey] == "" then []
    else
      match c.decode(storage[TableKey])
      case None => []
      case Some(decoded) => decoded
  }

  /** With the browser's JSON, every loaded row is an object: its names are distinct. */
  lemma LoadGivesObjects(c: Codec, storage: map<string, string>)
    requires ValidCodec(c)
    ensures Objects(LoadTableData(c, storage))
  {
    if TableKey in storage && storage[TableKey] != "" && c.decode(storage[TableKey]).Some? {
      assert Objects(c.decode(storage[TableKey]).value);
    }
  }

  /** After `save_table_data(rows)` a load gives exactly `rows` back. */
  lemma LoadAfterSave(c: Codec, storage: map<string, string>, rows: seq<Row>)
    requires ValidCodec(c) && Objects(rows)
    ensures LoadTableData(c, storage[TableKey := c.encode(rows)]) == rows
  {
    assert c.encode(rows) != "" && c.decode(c.encode(rows)) == Some(rows);
  }

  /** After `sessionStorage.clear()` a load gives the empty collection. */
  lemma LoadAfterClear(c: Codec)
    ensures LoadTableData(c, map[]) == []
  {
  }
}
