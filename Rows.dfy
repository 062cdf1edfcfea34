/**
 * A table row: the JavaScript object built by the submit handler, seen as an
 * association list of (field name, field value) pairs in property order.
 */
module Rows {
  import opened Wrappers

  type Row = seq<(string, string)>

  /** The name under which the submit handler stores the moment of submission. */
  const TimeStampKey := "time_stamp"

  /**
   * The one name a property write on a plain object does not create: writing
   * `obj["__proto__"]` calls the Object.prototype setter, which ignores a
   * string value.
   */
  const ProtoKey := "__proto__"

  /** The row's property names, in property order. */
  function Keys(row: Row): (ks: seq<string>)
    ensures |ks| == |row| && forall i :: 0 <= i < |row| ==> ks[i] == row[i].0
  {
    if row == [] then [] else [row[0].0] + Keys(row[1..])
  }

  /** A JavaScript object has each property name at most once. */
  ghost predicate DistinctKeys(row: Row)
  {
    forall i, j :: 0 <= i < j < |row| ==> row[i].0 != row[j].0
  }

  /** Property read `row[k]`: the value of the first pair named k, if any. */
  function Lookup(row: Row, k: string): (r: Option<string>)
    ensures r.None? <==> k !in Keys(row)
    ensures r.Some? ==> (k, r.value) in row
  {
    if row == [] then None
    else if row[0].0 == k then Some(row[0].1)
    else Lookup(row[1..], k)
  }

  /**
   * Property write `row[k] = v`: an existing property keeps its place and
   * takes the new value, a new property goes last.
   */
  function Put(row: Row, k: string, v: string): Row
  {
    if row == [] then [(k, v)]
    else if row[0].0 == k then [(k, v)] + row[1..]
    else [row[0]] + Put(row[1..], k, v)
  }

  /** After `row[k] = v` the names are unchanged if k was one of them, else k comes last. */
  lemma {:induction false} PutKeys(row: Row, k: string, v: string)
    ensures Keys(Put(row, k, v)) == if k in Keys(row) then Keys(row) else Keys(row) + [k]
  {
    if row != [] {
      var r := Put(row, k, v);
      if row[0].0 == k {
        assert r[1..] == row[1..];
      } else {
        PutKeys(row[1..], k, v);
        assert r[1..] == Put(row[1..], k, v);
      }
    }
  }

  /** After `row[k] = v`, k reads v and every other name reads what it read before. */
  lemma {:induction false} PutLookup(row: Row, k: string, v: string, k': string)
    ensures Lookup(Put(row, k, v), k') == if k' == k then Some(v) else Lookup(row, k')
  {
    if row != [] {
      var r := Put(row, k, v);
      if row[0].0 == k {
        assert r[1..] == row[1..];
      } else {
        PutLookup(row[1..], k, v, k');
        assert r[1..] == Put(row[1..], k, v);
      }
    }
  }

  /** Writing a property never makes a name appear twice. */
  lemma PutKeepsDistinct(row: Row, k: string, v: string)
    requires DistinctKeys(row)
    ensures DistinctKeys(Put(row, k, v))
  {
    var r := Put(row, k, v);
    PutKeys(row, k, v);
    forall i, j | 0 <= i < j < |r| ensures r[i].0 != r[j].0 {
      assert r[i].0 == Keys(r)[i] && r[j].0 == Keys(r)[j];
      if j < |row| {
        assert Keys(r)[i] == row[i].0 && Keys(r)[j] == row[j].0;
      } else {
        assert Keys(r)[j] == k && k !in Keys(row) && Keys(r)[i] == Keys(row)[i];
      }
    }
  }

  /** The assignment `obj[k] = v` on a plain object: a property write, except for `__proto__`. */
  function Assign(row: Row, k: string, v: string): Row
  {
    if k == ProtoKey then row else Put(row, k, v)
  }

  /** After `obj[k] = v`, k reads v unless it is `__proto__`; every other name is unchanged. */
  lemma AssignLookup(row: Row, k: string, v: string, k': string)
    ensures Lookup(Assign(row, k, v), k') == if k' == k && k != ProtoKey then Some(v) else Lookup(row, k')
  {
    if k != ProtoKey {
      PutLookup(row, k, v, k');
    }
  }

  /** The object the submit loop builds from the form entries, assigning them in order. */
  function FromEntries(entries: seq<(string, string)>): Row
  {
    if entries == [] then []
    else
      var last := entries[|entries| - 1];
      Assign(FromEntries(entries[..|entries| - 1]), last.0, last.1)
  }

  /** Assigning one more entry into the row built from a prefix. */
  lemma FromEntriesStep(entries: seq<(string, string)>, i: nat)
    requires i < |entries|
    ensures FromEntries(entries[..i + 1]) == Assign(FromEntries(entries[..i]), entries[i].0, entries[i].1)
  {
    assert entries[..i + 1][..i] == entries[..i];
  }

  /** The new row of a successful submission: the entries, then `time_stamp` set last. */
  function NewRow(entries: seq<(string, string)>, timestamp: string): Row
  {
    Put(FromEntries(entries), TimeStampKey, timestamp)
  }

  /** In a row with distinct names, the value of the i-th pair is what its name reads. */
  lemma {:induction false} LookupAt(row: Row, i: nat)
    requires DistinctKeys(row) && i < |row|
    ensures Lookup(row, row[i].0) == Some(row[i].1)
  {
    if i > 0 {
      assert row[0].0 != row[i].0;
      assert DistinctKeys(row[1..]) by {
        forall a, b | 0 <= a < b < |row[1..]| ensures row[1..][a].0 != row[1..][b].0 {
          assert row[1..][a] == row[a + 1] && row[1..][b] == row[b + 1];
        }
      }
      LookupAt(row[1..], i - 1);
      assert row[1..][i - 1] == row[i];
    }
  }

  /** entries[i] is the last entry named k. */
  ghost predicate LastWrite(entries: seq<(string, string)>, k: string, i: int)
  {
    0 <= i < |entries| && entries[i].0 == k && forall j :: i < j < |entries| ==> entries[j].0 != k
  }

  /** There is at most one last entry of a name. */
  lemma LastWriteUnique(entries: seq<(string, string)>, k: string, i: int, j: int)
    requires LastWrite(entries, k, i) && LastWrite(entries, k, j)
    ensures i == j
  {
  }

  /**
   * Each submitted name reads its LAST submitted value; a name never
   * submitted, and `__proto__` whatever was submitted, reads nothing.
   */
  lemma {:induction false} FromEntriesLookup(entries: seq<(string, string)>, k: string)
    ensures Lookup(FromEntries(entries), k).None? <==>
              k == ProtoKey || forall i :: 0 <= i < |entries| ==> entries[i].0 != k
    ensures k != ProtoKey ==>
              forall i :: LastWrite(entries, k, i) ==> Lookup(FromEntries(entries), k) == Some(entries[i].1)
  {
    if entries != [] {
      var n := |entries| - 1;
      var prefix := entries[..n];
      var name, value := entries[n].0, entries[n].1;
      assert FromEntries(entries) == Assign(FromEntries(prefix), name, value);
      FromEntriesLookup(prefix, k);
      AssignLookup(FromEntries(prefix), name, value, k);
      if name == k && k != ProtoKey {
        assert Lookup(FromEntries(entries), k) == Some(value);
        assert LastWrite(entries, k, n);
        forall i | LastWrite(entries, k, i) ensures i == n {
          LastWriteUnique(entries, k, i, n);
        }
      } else {
        assert Lookup(FromEntries(entries), k) == Lookup(FromEntries(prefix), k);
        assert forall i :: 0 <= i < n ==> prefix[i] == entries[i];
        if k != ProtoKey {
          forall i | LastWrite(entries, k, i) ensures LastWrite(prefix, k, i) {
            assert i != n;
          }
        }
      }
    }
  }

  /**
   * The row has one property per distinct submitted name other than
   * `__proto__`, and no other.
   */
  lemma {:induction false} FromEntriesKeys(entries: seq<(string, string)>)
    ensures DistinctKeys(FromEntries(entries))
    ensures forall k :: k in Keys(FromEntries(entries)) <==>
                        k != ProtoKey && exists i :: 0 <= i < |entries| && entries[i].0 == k
  {
    if entries != [] {
      var n := |entries| - 1;
      FromEntriesKeys(entries[..n]);
      if entries[n].0 != ProtoKey {
        PutKeepsDistinct(FromEntries(entries[..n]), entries[n].0, entries[n].1);
      }
    }
    forall k ensures k in Keys(FromEntries(entries)) <==> k != ProtoKey && exists i :: 0 <= i < |entries| && entries[i].0 == k {
      FromEntriesLookup(entries, k);
    }
  }

  /**
   * The new row: `time_stamp` reads the supplied timestamp, even when a form
   * field had that name (then the field keeps its place and loses its value);
   * every other name reads the last value submitted for it.
   */
  lemma NewRowContents(entries: seq<(string, string)>, timestamp: string)
    ensures DistinctKeys(NewRow(entries, timestamp))
    ensures Lookup(NewRow(entries, timestamp), TimeStampKey) == Some(timestamp)
    ensures forall k :: k != TimeStampKey ==> Lookup(NewRow(entries, timestamp), k) == Lookup(FromEntries(entries), k)
    ensures Keys(NewRow(entries, timestamp)) ==
              if TimeStampKey in Keys(FromEntries(entries)) then Keys(FromEntries(entries))
              else Keys(FromEntries(entries)) + [TimeStampKey]
  {
    FromEntriesKeys(entries);
    PutKeepsDistinct(FromEntries(entries), TimeStampKey, timestamp);
    PutKeys(FromEntries(entries), TimeStampKey, timestamp);
    forall k ensures Lookup(NewRow(entries, timestamp), k) == if k == TimeStampKey then Some(timestamp) else Lookup(FromEntries(entries), k) {
      PutLookup(FromEntries(entries), TimeStampKey, timestamp, k);
    }
  }

  /** A form field named `__proto__` is validated but never becomes a property of the row. */
  lemma NewRowIgnoresProto(value: string, timestamp: string)
    ensures NewRow([(ProtoKey, value)], timestamp) == [(TimeStampKey, timestamp)]
  {
    var entries := [(ProtoKey, value)];
    assert entries[..0] == [];
    assert FromEntries(entries) == Assign(FromEntries([]), ProtoKey, value);
  }
}
