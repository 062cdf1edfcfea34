/**
 * The page: the session storage and the table body it shows, and the
 * handlers of script.js that read and change them.
 */
module Page {
  import opened Wrappers
  import opened Text
  import opened Rows
  import opened TableView
  import opened Storage

  class PageState {
    /** Stands for JSON.stringify / JSON.parse. */
    const codec: Codec
    /** sessionStorage of the tab. */
    var storage: map<string, string>
    /** The rendered `<tbody>`: one sequence of cell texts per `<tr>`. */
    var table: seq<seq<string>>
    /** How many times the form was reset (`form.reset()`). */
    var formResets: nat
    /** How many "all fields must be filled" alerts were shown. */
    var alerts: nat

    /** The table shows exactly what storage holds. */
    ghost predicate Synced()
      reads this
    {
      table == Render(LoadTableData(codec, storage))
    }

    /** A page opened in a tab whose session storage is `storage`; the body starts empty. */
    constructor (codec: Codec, storage: map<string, string>)
      ensures this.codec == codec && this.storage == storage
      ensures table == [] && formResets == 0 && alerts == 0
    {
      this.codec := codec;
      this.storage := storage;
      table := [];
      formResets := 0;
      alerts := 0;
    }

    /** `save_table_data`: overwrite the one storage key with the encoded collection. */
    method SaveTableData(rows: seq<Row>)
      modifies this`storage
      ensures storage == old(storage)[TableKey := codec.encode(rows)]
    {
      storage := storage[TableKey := codec.encode(rows)];
    }

    /** `populate_table`: discard the old body, then one row per record, one cell per property. */
    method PopulateTable(rows: seq<Row>)
      modifies this`table
      ensures table == Render(rows)
    {
      table := [];
      var i := 0;
      while i < |rows|
        invariant 0 <= i <= |rows|
        invariant table == Render(rows[..i])
      {
        var row := rows[i];
        var cells: seq<string> := [];
        var j := 0;
        while j < |row|
          invariant 0 <= j <= |row|
          invariant cells == Cells(row)[..j]
        {
          cells := cells + [row[j].1];
          j := j + 1;
        }
        assert Cells(row)[..j] == Cells(row);
        assert rows[..i + 1] == rows[..i] + [row];
        RenderAppend(rows[..i], row);
        table := table + [cells];
        i := i + 1;
      }
      assert rows[..i] == rows;
    }

    /** `clear_table`: wipe every storage key and render the empty collection. */
    method ClearTable()
      modifies this`storage, this`table
      ensures storage == map[] && table == []
      ensures LoadTableData(codec, storage) == [] && Synced()
    {
      storage := map[];
      PopulateTable([]);
      LoadAfterClear(codec);
    }

    /** The DOMContentLoaded handler: load, then render. */
    method OnContentLoaded()
      modifies this`table
      ensures table == Render(LoadTableData(codec, storage)) && Synced()
    {
      var rows := LoadTableData(codec, storage);
      PopulateTable(rows);
    }

    /**
     * The submit handler on the form entries (name, value) in form order.
     * The first blank value aborts it: an alert and nothing else. Otherwise
     * the new row is appended to the loaded collection, saved, rendered and
     * the form reset.
     */
    method Submit(entries: seq<(string, string)>, timestamp: string) returns (accepted: bool)
      requires timestamp != ""
      modifies this`storage, this`table, this`formResets, this`alerts
      ensures accepted <==> forall i :: 0 <= i < |entries| ==> !Blank(entries[i].1)
      ensures !accepted ==>
                storage == old(storage) && table == old(table) && formResets == old(formResets)
                && alerts == old(alerts) + 1
      ensures accepted ==>
                var updated := old(LoadTableData(codec, storage)) + [NewRow(entries, timestamp)];
                && storage == old(storage)[TableKey := codec.encode(updated)]
                && table == Render(updated)
                && formResets == old(formResets) + 1 && alerts == old(alerts)
      ensures accepted && ValidCodec(codec) ==>
                LoadTableData(codec, storage) == old(LoadTableData(codec, storage)) + [NewRow(entries, timestamp)]
                && Synced()
    {
      var collected := CollectEntries(entries);
      if collected.None? {
        alerts := alerts + 1;
        return false;
      }
      var row := collected.value;
      row := Put(row, TimeStampKey, timestamp);
      var current := LoadTableData(codec, storage);
      current := current + [row];
      SaveTableData(current);
      PopulateTable(current);
      formResets := formResets + 1;
      accepted := true;
      if ValidCodec(codec) {
        AppendThenLoad(codec, old(storage), entries, timestamp);
      }
    }
  }

  /**
   * With the browser's JSON, saving the loaded collection plus a new row and
   * loading again gives that collection plus the row.
   */
  lemma AppendThenLoad(c: Codec, storage: map<string, string>, entries: seq<(string, string)>, timestamp: string)
    requires ValidCodec(c)
    ensures var updated := LoadTableData(c, storage) + [NewRow(entries, timestamp)];
            LoadTableData(c, storage[TableKey := c.encode(updated)]) == updated
  {
    var rows := LoadTableData(c, storage);
    var updated := rows + [NewRow(entries, timestamp)];
    LoadGivesObjects(c, storage);
    NewRowContents(entries, timestamp);
    assert forall i :: 0 <= i < |rows| ==> updated[i] == rows[i];
    assert Objects(updated);
    LoadAfterSave(c, storage, updated);
  }

  /**
   * With the browser's JSON, what a synced page shows is faithful: every
   * table row has one cell per property of the loaded record, and cell j is
   * what the record reads under its j-th name.
   */
  lemma LoadedRowsRenderFaithfully(c: Codec, storage: map<string, string>, i: nat)
    requires ValidCodec(c) && i < |LoadTableData(c, storage)|
    ensures var rows := LoadTableData(c, storage);
            && |Render(rows)[i]| == |Keys(rows[i])|
            && forall j :: 0 <= j < |Keys(rows[i])| ==> Lookup(rows[i], Keys(rows[i])[j]) == Some(Render(rows)[i][j])
  {
    LoadGivesObjects(c, storage);
    RenderFidelity(LoadTableData(c, storage), i);
  }

  /**
   * The entry loop of the submit handler: writes each entry into the new row
   * in form order, and stops at the first value that trims to "".
   */
  method CollectEntries(entries: seq<(string, string)>) returns (row: Option<Row>)
    ensures row.None? <==> exists i :: 0 <= i < |entries| && Blank(entries[i].1)
    ensures row.Some? ==> row.value == FromEntries(entries)
  {
    var obj: Row := [];
    var i := 0;
    while i < |entries|
      invariant 0 <= i <= |entries|
      invariant obj == FromEntries(entries[..i])
      invariant forall j :: 0 <= j < i ==> !Blank(entries[j].1)
    {
      var name, value := entries[i].0, entries[i].1;
      TrimEmptyIffBlank(value);
      if Trim(value) == "" {
        return None;
      }
      FromEntriesStep(entries, i);
      obj := Assign(obj, name, value);
      i := i + 1;
    }
    assert entries[..i] == entries;
    return Some(obj);
  }

  /** The row of a form with the single field `name`. */
  lemma NewRowOfOneField(name: string, timestamp: string)
    ensures NewRow([("name", name)], timestamp) == [("name", name), (TimeStampKey, timestamp)]
  {
    var entries := [("name", name)];
    assert entries[..0] == [];
    assert FromEntries(entries[..0]) == [];
    var row := FromEntries(entries);
    assert "name" != ProtoKey by {
      assert "name"[0] != ProtoKey[0];
    }
    assert row == Put([], "name", name);
    assert row == [("name", name)];
    assert "name" != TimeStampKey by {
      assert "name"[0] != TimeStampKey[0];
    }
    assert row[1..] == [];
    assert Put(row, TimeStampKey, timestamp) == [row[0]] + Put([], TimeStampKey, timestamp);
  }

  /**
   * Two submissions into an empty session: {name: "Ana"} then {name: "Iva"}.
   * Storage then holds both rows, each with its timestamp, and the table
   * shows two rows.
   */
  method TwoSubmissions(codec: Codec, ts1: string, ts2: string) returns (stored: seq<Row>, shown: seq<seq<string>>)
    requires ValidCodec(codec) && ts1 != "" && ts2 != ""
    ensures stored == [[("name", "Ana"), (TimeStampKey, ts1)], [("name", "Iva"), (TimeStampKey, ts2)]]
    ensures shown == [["Ana", ts1], ["Iva", ts2]]
  {
    var page := new PageState(codec, map[]);
    page.OnContentLoaded();
    assert !IsWhiteSpace("Ana"[0]) && !IsWhiteSpace("Iva"[0]);
    NewRowOfOneField("Ana", ts1);
    NewRowOfOneField("Iva", ts2);
    var first := page.Submit([("name", "Ana")], ts1);
    var second := page.Submit([("name", "Iva")], ts2);
    stored := LoadTableData(codec, page.storage);
    shown := page.table;
    assert Cells(stored[0]) == ["Ana", ts1] && Cells(stored[1]) == ["Iva", ts2];
  }
}
