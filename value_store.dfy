/** The persisted override table: one text value per node id, keyed by the
    primary key `node_id`. The SQLite connection, its commands and the
    `updated_utc` column are not part of this model; the table is a map. */
module Store {
  import opened Wrappers
  import opened Values

  /** The text an upsert stores: `value?.ToString() ?? ""`. */
  function StoredText(value: Option<Value>, formatDouble: real -> string): (t: string)
    ensures value.None? ==> t == ""
    ensures value.Some? ==> t == TextOf(value.value, formatDouble)
  {
    match value
    case None => ""
    case Some(v) => TextOf(v, formatDouble)
  }

  /** The table after `INSERT ... ON CONFLICT(node_id) DO UPDATE`. */
  function Upserted(rows: map<string, string>, key: string, text: string): (r: map<string, string>)
    ensures key in r && r[key] == text
    ensures forall k :: k in rows && k != key ==> k in r && r[k] == rows[k]
    ensures forall k :: k in r ==> k in rows || k == key
  {
    rows[key := text]
  }

  /** A second upsert of the same key replaces the first. */
  lemma UpsertReplaces(rows: map<string, string>, key: string, first: string, second: string)
    ensures Upserted(Upserted(rows, key, first), key, second) == Upserted(rows, key, second)
  {
  }

  /** Upserts of different keys do not interfere. */
  lemma UpsertsCommute(rows: map<string, string>, k1: string, t1: string, k2: string, t2: string)
    requires k1 != k2
    ensures Upserted(Upserted(rows, k1, t1), k2, t2) == Upserted(Upserted(rows, k2, t2), k1, t1)
  {
    var a := Upserted(Upserted(rows, k1, t1), k2, t2);
    var b := Upserted(Upserted(rows, k2, t2), k1, t1);
    assert a == rows[k1 := t1][k2 := t2];
    assert b == rows[k2 := t2][k1 := t1];
    assert a.Keys == b.Keys;
  }

  class ValueStore {
    /** How `double.ToString()` prints; the runtime's business. */
    const formatDouble: real -> string
    var rows: map<string, string>

    /** Opening the database: `CREATE TABLE IF NOT EXISTS` keeps the rows
        an earlier run left. */
    constructor (existing: map<string, string>, formatDouble: real -> string)
      ensures rows == existing && this.formatDouble == formatDouble
    {
      rows := existing;
      this.formatDouble := formatDouble;
    }

    method Upsert(key: string, value: Option<Value>)
      modifies this`rows
      ensures rows == Upserted(old(rows), key, StoredText(value, formatDouble))
    {
      rows := rows[key := StoredText(value, formatDouble)];
    }

    /** `SELECT value ... WHERE node_id=$id`: the stored text, or `(false, null)`. */
    method TryGet(key: string) returns (found: bool, value: Option<string>)
      ensures found <==> key in rows
      ensures found ==> value == Some(rows[key])
      ensures !found ==> value.None?
    {
      if key in rows {
        found, value := true, Some(rows[key]);
      } else {
        found, value := false, None;
      }
    }
  }
}
