/**
 * The `GenrePopularity` tracker: a dict of genre listen counts kept in step
 * with a CSV record. Every successful change is written through at once.
 */
module Genre {
  import opened Wrappers
  import opened PyStrings
  import opened OrderedTable
  import opened CsvRows

  /** `name.strip().title()`: the key under which `add_genre` and `delete_genre` file a name. */
  function Normalize(name: string): (k: string)
    ensures IsStripped(k)
  {
    TitleKeepsStripped(Strip(name));
    Title(Strip(name))
  }

  /** Normalising a normalised name changes nothing. */
  lemma {:induction false} NormalizeIdempotent(name: string)
    ensures Normalize(Normalize(name)) == Normalize(name)
  {
    var s := Strip(name);
    TitleKeepsStripped(s);
    TitleIdempotent(s);
  }

  /**
   * Keys are normalised only by `add_genre` and `delete_genre`, never by
   * `load_csv`: a loaded key that normalisation would change can never be
   * named by either of them.
   */
  lemma {:induction false} UnnormalizedKeyUnreachable(k: string, name: string)
    requires Normalize(k) != k
    ensures Normalize(name) != k
  {
    NormalizeIdempotent(name);
  }

  /** The `count` argument of `add_genre`: a Python int, a (finite) float or a str. */
  datatype CountArg = IntArg(i: int) | FloatArg(x: real) | StrArg(s: string)

  /** `int(count)`; None where it raises ValueError. */
  function ToInt(count: CountArg): (r: Option<int>)
    ensures count.IntArg? ==> r == Some(count.i)
    ensures count.FloatArg? ==> r.Some? && -1.0 < r.value as real - count.x < 1.0
    ensures count.FloatArg? && 0.0 <= count.x ==> 0 <= r.value && r.value as real <= count.x
    ensures count.FloatArg? && count.x < 0.0 ==> r.value <= 0 && count.x <= r.value as real
    ensures count.StrArg? && count.s == "" ==> r.None?
  {
    match count
    case IntArg(i) => Some(i)
    case FloatArg(x) => Some(Truncate(x))
    case StrArg(s) => ParseInt(s)
  }

  /** `int()` keeps an int, reads back any written count, and rejects the empty string. */
  lemma {:induction false} CountCoercion(n: int)
    ensures ToInt(IntArg(n)) == Some(n)
    ensures ToInt(StrArg(FormatInt(n))) == Some(n)
    ensures ToInt(StrArg("")) == None
  {
    ParseFormatRoundTrip(n);
    ParseIntRejectsBlank("");
  }

  /**
   * A string count `int()` rejects: one of whitespace only, or one holding a
   * separator U+001C..U+001F anywhere (which `int()` does not skip).
   */
  lemma {:induction false} RejectedCountStrings(s: string)
    ensures AllSpace(s) ==> ToInt(StrArg(s)) == None
    ensures (exists i | 0 <= i < |s| :: '\U{1C}' <= s[i] <= '\U{1F}') ==> ToInt(StrArg(s)) == None
  {
    if AllSpace(s) {
      ParseIntRejectsBlank(s);
    }
    if exists i | 0 <= i < |s| :: '\U{1C}' <= s[i] <= '\U{1F}' {
      var i :| 0 <= i < |s| && '\U{1C}' <= s[i] <= '\U{1F}';
      SeparatorRejected(s, i);
    }
  }

  /**
   * The dict update of `add_genre`: `data[name] += count` for a genre that is
   * already a key (its entry keeps its place), `data[name] = count` for a new
   * one (appended last).
   */
  function Accumulate(t: Table, k: string, c: int): (r: Table)
    ensures Held(r, k) == Held(t, k) + c
  {
    if t == [] then [Entry(k, c)]
    else if t[0].genre == k then [Entry(k, t[0].listens + c)] + t[1..]
    else [t[0]] + Accumulate(t[1..], k, c)
  }

  /** Past an entry for another genre, `Accumulate` and `Held` both look further on. */
  lemma {:induction false} AccumulatePast(t: Table, k: string, c: int)
    requires t != [] && t[0].genre != k
    ensures Accumulate(t, k, c) == [t[0]] + Accumulate(t[1..], k, c)
    ensures Held(t, k) == Held(t[1..], k)
  {
  }

  /** Both branches of `add_genre` are `d[k] = d.get(k, 0) + count`. */
  lemma {:induction false} AccumulateIsAssign(t: Table, k: string, c: int)
    requires Distinct(t)
    ensures Accumulate(t, k, c) == Assign(t, k, Held(t, k) + c)
  {
    if t == [] {
      assert Held(t, k) + c == c;
    } else if t[0].genre == k {
      assert Held(t, k) + c == t[0].listens + c;
      AssignStep(t, k, t[0].listens + c);
    } else {
      var v := Held(t, k) + c;
      AccumulatePast(t, k, c);
      AssignStep(t, k, v);
      AccumulateIsAssign(t[1..], k, c);
    }
  }

  /** A genre that is not yet a key is appended with the count. */
  lemma {:induction false} AccumulateNew(t: Table, k: string, c: int)
    requires k !in Genres(t)
    ensures Accumulate(t, k, c) == t + [Entry(k, c)]
  {
    if t != [] {
      Uncons(t);
      assert t[0].genre != k && k !in Genres(t[1..]);
      AccumulateNew(t[1..], k, c);
      assert Accumulate(t, k, c) == [t[0]] + Accumulate(t[1..], k, c);
      assert t + [Entry(k, c)] == [t[0]] + (t[1..] + [Entry(k, c)]);
    }
  }

  /** An existing genre keeps its place; a new genre goes last, after the others in their old order. */
  lemma {:induction false} AccumulateKeys(t: Table, k: string, c: int)
    requires Distinct(t)
    ensures Genres(Accumulate(t, k, c)) == if k in Genres(t) then Genres(t) else Genres(t) + [k]
  {
    AccumulateIsAssign(t, k, c);
  }

  /** Keys stay distinct. */
  lemma {:induction false} AccumulateDistinct(t: Table, k: string, c: int)
    requires Distinct(t)
    ensures Distinct(Accumulate(t, k, c))
  {
    var r := Assign(t, k, Held(t, k) + c);
    assert Distinct(r);
    AccumulateIsAssign(t, k, c);
  }

  /** Adding a stripped genre keeps every key stripped and distinct. */
  lemma {:induction false} AccumulateKeepsStorable(t: Table, k: string, c: int)
    requires Storable(t) && IsStripped(k)
    ensures Storable(Accumulate(t, k, c))
  {
    AccumulateKeys(t, k, c);
    AccumulateDistinct(t, k, c);
  }

  /** Only genre `k` changes, by exactly `c` (from 0 when it is new). */
  lemma {:induction false} AccumulateMap(t: Table, k: string, c: int)
    ensures AsMap(Accumulate(t, k, c)) == AsMap(t)[k := Held(t, k) + c]
  {
    if t == [] {
      assert [Entry(k, c)][1..] == [];
    } else if t[0].genre == k {
      Cons(Entry(k, t[0].listens + c), t[1..]);
    } else {
      AccumulateMap(t[1..], k, c);
      Cons(t[0], Accumulate(t[1..], k, c));
    }
  }

  /** The total grows by exactly `c`. */
  lemma {:induction false} AccumulateTotal(t: Table, k: string, c: int)
    ensures Total(Accumulate(t, k, c)) == Total(t) + c
  {
    if t == [] {
      assert Total([Entry(k, c)]) == c;
    } else if t[0].genre == k {
      Cons(Entry(k, t[0].listens + c), t[1..]);
    } else {
      AccumulateTotal(t[1..], k, c);
      Cons(t[0], Accumulate(t[1..], k, c));
    }
  }

  /** Adding twice to the same genre is adding the sum once. */
  lemma {:induction false} AccumulateTwice(t: Table, k: string, a: int, b: int)
    ensures Accumulate(Accumulate(t, k, a), k, b) == Accumulate(t, k, a + b)
  {
    if t == [] {
      assert [Entry(k, a)][1..] == [];
    } else if t[0].genre == k {
      Cons(Entry(k, t[0].listens + a), t[1..]);
    } else {
      AccumulateTwice(t[1..], k, a, b);
      Cons(t[0], Accumulate(t[1..], k, a));
    }
  }

  /**
   * `delete_genre(name)` right after `add_genre(name, c)` of a new genre
   * gives back the dict from before, even when it is given the stored key.
   */
  lemma {:induction false} DeleteUndoesAdd(t: Table, name: string, c: int)
    requires Distinct(t) && Normalize(name) !in AsMap(t)
    ensures Distinct(Accumulate(t, Normalize(name), c))
    ensures Remove(Accumulate(t, Normalize(name), c), Normalize(Normalize(name))) == t
  {
    var k := Normalize(name);
    NormalizeIdempotent(name);
    AsMapKeys(t, k);
    AccumulateNew(t, k, c);
    RemoveAppended(t, k, c);
  }

  /** The file behind `csv_file`, as the rows it holds. */
  class CsvFile {
    /** None when the file does not exist or cannot be opened for reading. */
    var rows: Option<seq<Row>>
    /** Whether opening the file for writing succeeds. */
    var writable: bool

    constructor (rows: Option<seq<Row>>, writable: bool)
      ensures this.rows == rows && this.writable == writable
    {
      this.rows := rows;
      this.writable := writable;
    }
  }

  class GenrePopularity {
    /** `self.data`: genre to listens, in insertion order. */
    var data: Table
    /** `self.csv_file`. */
    const csvFile: CsvFile

    /** Keys are distinct and stripped: `load_csv` strips them and `add_genre` normalises them. */
    ghost predicate Valid()
      reads this
    {
      Storable(data)
    }

    /** `__init__`: start from an empty dict and load the record. */
    constructor (csvFile: CsvFile)
      ensures Valid() && this.csvFile == csvFile
      ensures data == match csvFile.rows
        case None => []
        case Some(rows) => Load([], rows)
    {
      data := [];
      this.csvFile := csvFile;
      new;
      LoadCsv();
    }

    /**
     * `load_csv`: a missing file leaves the dict alone; otherwise the first
     * row is skipped and the others are stored until one has a bad count.
     */
    method LoadCsv()
      requires Valid()
      modifies this
      ensures Valid()
      ensures data == match csvFile.rows
        case None => old(data)
        case Some(rows) => Load(old(data), rows)
    {
      if csvFile.rows.None? {
        return;
      }
      var rows := csvFile.rows.value;
      if rows == [] {
        return;
      }
      ghost var loaded := Load(data, rows);
      var i := 1;
      while i < |rows|
        invariant 1 <= i <= |rows|
        invariant Valid()
        invariant LoadBody(data, rows[i..]) == loaded
      {
        LoadBodyAt(data, rows, i);
        var stored := StoreRow(rows[i]);
        if !stored {
          return;
        }
        i := i + 1;
      }
    }

    /**
     * One row of the loop of `load_csv`: a row without exactly two fields is
     * passed over; otherwise the stripped genre is set to the stripped count,
     * unless `int()` rejects that count, which ends the load (`stored` false).
     */
    method StoreRow(row: Row) returns (stored: bool)
      requires Valid()
      modifies this
      ensures Valid()
      ensures ApplyRow(old(data), row) == if stored then Some(data) else None
      ensures !stored ==> data == old(data)
    {
      if |row| == 2 {
        var listens := ParseInt(Strip(row[1]));
        if listens.None? {
          return false;
        }
        AssignKeepsStorable(data, Strip(row[0]), listens.value);
        data := Assign(data, Strip(row[0]), listens.value);
      }
      return true;
    }

    /**
     * `save_csv`: when the file opens for writing it is rewritten with the
     * header and one row per genre; otherwise it is left as it was.
     */
    method SaveCsv()
      modifies csvFile
      ensures csvFile.writable == old(csvFile.writable)
      ensures csvFile.rows == if csvFile.writable then Some(Serialize(data)) else old(csvFile.rows)
    {
      if !csvFile.writable {
        return;
      }
      csvFile.rows := Some([Header]);
      var i := 0;
      assert [Header] + ItemRows(data[..i]) == [Header];
      while i < |data|
        invariant 0 <= i <= |data|
        invariant csvFile.writable
        invariant csvFile.rows == Some([Header] + ItemRows(data[..i]))
      {
        ghost var written := csvFile.rows.value;
        csvFile.rows := Some(csvFile.rows.value + [ItemRow(data[i])]);
        ItemRowsSnoc(data, i);
        i := i + 1;
      }
      assert data[..i] == data;
    }

    /**
     * `add_genre`: a count that `int()` rejects changes nothing and saves
     * nothing; otherwise the dict becomes `Accumulate` of the normalised
     * genre and the count: an existing genre keeps its place, a new one is
     * appended last, the total grows by exactly the count, and the record
     * is saved. `AccumulateMap` says that only that genre's count changes.
     */
    method AddGenre(name: string, count: CountArg)
      requires Valid()
      modifies this, csvFile
      ensures Valid()
      ensures csvFile.writable == old(csvFile.writable)
      ensures ToInt(count).None? ==> data == old(data) && csvFile.rows == old(csvFile.rows)
      ensures ToInt(count).Some? ==>
        var k, c := Normalize(name), ToInt(count).value;
        && data == Accumulate(old(data), k, c)
        && Genres(data) == (if k in old(Genres(data)) then old(Genres(data)) else old(Genres(data)) + [k])
        && Total(data) == old(Total(data)) + c
        && csvFile.rows == if csvFile.writable then Some(Serialize(data)) else old(csvFile.rows)
    {
      var key := Normalize(name);
      var c := ToInt(count);
      if c.None? {
        return;
      }
      var next := Accumulate(data, key, c.value);
      AccumulateKeepsStorable(data, key, c.value);
      AccumulateKeys(data, key, c.value);
      AccumulateTotal(data, key, c.value);
      data := next;
      SaveCsv();
    }

    /**
     * `delete_genre`: a normalised name that is a key leaves the dict, the
     * rest keep their order, the total drops by its count and the record is
     * saved; any other name changes nothing and saves nothing.
     */
    method DeleteGenre(name: string)
      requires Valid()
      modifies this, csvFile
      ensures Valid()
      ensures csvFile.writable == old(csvFile.writable)
      ensures var k := Normalize(name);
        if k in old(AsMap(data)) then
          && data == Remove(old(data), k)
          && AsMap(data) == old(AsMap(data)) - {k}
          && Genres(data) == Without(old(Genres(data)), k)
          && Total(data) == old(Total(data)) - old(AsMap(data))[k]
          && csvFile.rows == (if csvFile.writable then Some(Serialize(data)) else old(csvFile.rows))
        else
          data == old(data) && csvFile.rows == old(csvFile.rows)
    {
      var key := Normalize(name);
      if key in AsMap(data) {
        HeldIsLookup(data, key);
        RemoveMap(data, key);
        TotalAfterRemove(data, key);
        RemoveKeepsStorable(data, key);
        data := Remove(data, key);
        SaveCsv();
      }
    }
  }
}
