/**
 * The CSV record behind the tracker, taken as the rows that `csv.writer`
 * writes and `csv.reader` gives back (quoting and escaping are the csv
 * module's business and are not modelled).
 */
module CsvRows {
  import opened Wrappers
  import opened PyStrings
  import opened OrderedTable

  type Row = seq<string>

  const Header: Row := ["Genre", "Listens"]

  /**
   * What `save_csv` writes for one dict item: the genre, then `str(listens)`,
   * a numeral with no whitespace around it that reads back as the count.
   */
  function ItemRow(e: Entry): (r: Row)
    ensures |r| == 2 && r[0] == e.genre && r[1] == FormatInt(e.listens)
    ensures ParseSigned(r[1]) == Some(e.listens)
  {
    ParseFormatRoundTrip(e.listens);
    [e.genre, FormatInt(e.listens)]
  }

  /** The item rows, one per entry in dict order. */
  function ItemRows(t: Table): (r: seq<Row>)
    ensures |r| == |t|
  {
    seq(|t|, i requires 0 <= i < |t| => ItemRow(t[i]))
  }

  /**
   * Everything `save_csv` writes: the header row, then one row per item in
   * dict order. Loading it into an empty dict gives back a dict of stripped keys.
   */
  function Serialize(t: Table): (r: seq<Row>)
    ensures |r| == |t| + 1 && r[0] == Header && r[1..] == ItemRows(t)
    ensures Storable(t) ==> Load([], r) == t
  {
    var r := [Header] + ItemRows(t);
    assert Storable(t) ==> Load([], r) == t by {
      if Storable(t) {
        SaveLoadRoundTrip(t);
      }
    }
    r
  }

  /** A dict whose keys all came through `str.strip()`, as every key of the tracker does. */
  predicate Storable(t: Table) {
    Distinct(t) && forall g | g in Genres(t) :: IsStripped(g)
  }

  lemma {:induction false} AssignKeepsStorable(t: Table, k: string, v: int)
    requires Storable(t) && IsStripped(k)
    ensures Storable(Assign(t, k, v))
  {
  }

  lemma {:induction false} RemoveKeepsStorable(t: Table, k: string)
    requires Storable(t)
    ensures Storable(Remove(t, k))
  {
    forall g | g in Genres(Remove(t, k)) ensures IsStripped(g) {
      WithoutShrinks(Genres(t), k, g);
    }
  }

  /** A row that does not stop the load: it has no count `int()` rejects. */
  predicate Accepted(row: Row) {
    |row| == 2 ==> ParseInt(Strip(row[1])).Some?
  }

  /**
   * One data row of `load_csv`: a row without exactly two fields is passed
   * over; otherwise `data[genre.strip()] = int(listens.strip())`, where a
   * failing `int` raises (None) and ends the load.
   */
  function ApplyRow(t: Table, row: Row): (r: Option<Table>)
    requires Distinct(t)
    ensures r.Some? ==> Distinct(r.value) && Genres(t) <= Genres(r.value)
  {
    if |row| != 2 then Some(t)
    else
      match ParseInt(Strip(row[1]))
      case None => None
      case Some(v) => Some(Assign(t, Strip(row[0]), v))
  }

  /**
   * A row yields no dict exactly when it has two fields and `int()` rejects
   * its count; a row without two fields leaves the dict as it was.
   */
  lemma {:induction false} ApplyRowOutcome(t: Table, row: Row)
    requires Distinct(t)
    ensures ApplyRow(t, row).None? <==> |row| == 2 && ParseInt(Strip(row[1])).None?
    ensures ApplyRow(t, row).Some? <==> Accepted(row)
    ensures |row| != 2 ==> ApplyRow(t, row) == Some(t)
  {
  }

  /**
   * The loop of `load_csv` over the rows after the first. Keys already in the
   * dict stay first, in their order (a later row may overwrite their counts);
   * keys stay distinct.
   */
  function LoadBody(t: Table, rows: seq<Row>): (r: Table)
    requires Distinct(t)
    ensures Distinct(r)
    ensures Genres(t) <= Genres(r)
    decreases |rows|
  {
    if rows == [] then t
    else
      match ApplyRow(t, rows[0])
      case None => t
      case Some(t') => LoadBody(t', rows[1..])
  }

  /** One step of the loop: the first row is applied, then the rest are loaded. */
  lemma {:induction false} LoadBodyStep(t: Table, row: Row, rest: seq<Row>)
    requires Distinct(t)
    ensures LoadBody(t, [row] + rest) == match ApplyRow(t, row)
      case None => t
      case Some(t') => LoadBody(t', rest)
  {
    assert ([row] + rest)[0] == row && ([row] + rest)[1..] == rest;
  }

  /** The same step, at row `i` of a record. */
  lemma {:induction false} LoadBodyAt(t: Table, rows: seq<Row>, i: nat)
    requires Distinct(t) && i < |rows|
    ensures LoadBody(t, rows[i..]) == match ApplyRow(t, rows[i])
      case None => t
      case Some(t') => LoadBody(t', rows[i + 1..])
  {
    assert rows[i..][0] == rows[i] && rows[i..][1..] == rows[i + 1..];
  }

  lemma {:induction false} LoadKeepsStorable(t: Table, rows: seq<Row>)
    requires Storable(t)
    ensures Storable(LoadBody(t, rows))
    decreases |rows|
  {
    if rows != [] {
      match ApplyRow(t, rows[0])
      case None =>
      case Some(t') =>
        assert Storable(t');
        LoadKeepsStorable(t', rows[1..]);
    }
  }

  /** `load_csv`: the first row is dropped unread, the rest are loaded into `t`. */
  function Load(t: Table, rows: seq<Row>): (r: Table)
    requires Distinct(t)
    ensures Distinct(r) && Genres(t) <= Genres(r)
    ensures |rows| <= 1 ==> r == t
  {
    if rows == [] then t else LoadBody(t, rows[1..])
  }

  // ---------------------------------------------------------------------
  // Properties of loading
  // ---------------------------------------------------------------------

  /** Whatever the first row holds, it does not matter. */
  lemma {:induction false} FirstRowDiscarded(t: Table, rows: seq<Row>, other: Row)
    requires Distinct(t) && rows != []
    ensures Load(t, rows) == Load(t, [other] + rows[1..])
  {
    assert ([other] + rows[1..])[1..] == rows[1..];
  }

  /** How a record that has `row` between `before` and `after` splits at its first row. */
  lemma SplitFirst<T>(before: seq<T>, row: T, after: seq<T>)
    ensures before == [] ==> before + [row] + after == [row] + after && before + after == after
    ensures before != [] ==>
      && before + [row] + after == [before[0]] + (before[1..] + [row] + after)
      && before + after == [before[0]] + (before[1..] + after)
      && before == [before[0]] + before[1..]
  {
  }

  /** A row that does not have exactly two fields is skipped as if it were not there. */
  lemma {:induction false} MalformedRowSkipped(t: Table, before: seq<Row>, row: Row, after: seq<Row>)
    requires Distinct(t) && |row| != 2
    ensures LoadBody(t, before + [row] + after) == LoadBody(t, before + after)
    decreases |before|
  {
    SplitFirst(before, row, after);
    if before == [] {
      LoadBodyStep(t, row, after);
    } else {
      LoadBodyStep(t, before[0], before[1..] + [row] + after);
      LoadBodyStep(t, before[0], before[1..] + after);
      match ApplyRow(t, before[0])
      case None =>
      case Some(t') => MalformedRowSkipped(t', before[1..], row, after);
    }
  }

  /** A count that `int()` rejects ends the load: what was read before it stays, nothing after it is read. */
  lemma {:induction false} BadCountStopsLoad(t: Table, before: seq<Row>, row: Row, after: seq<Row>)
    requires Distinct(t) && |row| == 2 && ParseInt(Strip(row[1])) == None
    ensures LoadBody(t, before + [row] + after) == LoadBody(t, before)
    decreases |before|
  {
    SplitFirst(before, row, after);
    if before == [] {
      LoadBodyStep(t, row, after);
    } else {
      LoadBodyStep(t, before[0], before[1..] + [row] + after);
      LoadBodyStep(t, before[0], before[1..]);
      match ApplyRow(t, before[0])
      case None =>
      case Some(t') => BadCountStopsLoad(t', before[1..], row, after);
    }
  }

  lemma {:induction false} ReadGoodRow(t: Table, row: Row, v: int)
    requires Distinct(t) && |row| == 2 && ParseInt(Strip(row[1])) == Some(v)
    ensures ApplyRow(t, row) == Some(Assign(t, Strip(row[0]), v))
  {
  }

  /** A worked case of `LoadBodyAppend`: two good rows are applied one after the other. */
  lemma {:induction false} LoadTwoRows(t: Table, r1: Row, r2: Row, t1: Table, t2: Table)
    requires Distinct(t) && ApplyRow(t, r1) == Some(t1) && Distinct(t1) && ApplyRow(t1, r2) == Some(t2)
    ensures LoadBody(t, [r1, r2]) == t2
  {
    LoadBodyStep(t, r1, [r2]);
    LoadBodyStep(t1, r2, []);
    assert [r1] + [r2] == [r1, r2];
  }

  /**
   * A worked case of `LastRowWins`, stated on the whole dict: two final rows
   * for the same stripped genre leave the later count, not the sum.
   */
  lemma {:induction false} LaterDuplicateWins(t: Table, g1: string, s1: string, g2: string, s2: string, a: int, b: int)
    requires Distinct(t) && Strip(g1) == Strip(g2)
    requires ParseInt(Strip(s1)) == Some(a) && ParseInt(Strip(s2)) == Some(b)
    ensures LoadBody(t, [[g1, s1], [g2, s2]]) == Assign(t, Strip(g1), b)
  {
    var r1: Row, r2: Row := [g1, s1], [g2, s2];
    var t1 := Assign(t, Strip(g1), a);
    ReadGoodRow(t, r1, a);
    ReadGoodRow(t1, r2, b);
    LoadTwoRows(t, r1, r2, t1, Assign(t1, Strip(g1), b));
    AssignTwice(t, Strip(g1), a, b);
  }

  /** Rows that all get through can be loaded first, and the rest loaded after them. */
  lemma {:induction false} LoadBodyAppend(t: Table, xs: seq<Row>, ys: seq<Row>)
    requires Distinct(t) && forall i | 0 <= i < |xs| :: Accepted(xs[i])
    ensures LoadBody(t, xs + ys) == LoadBody(LoadBody(t, xs), ys)
    decreases |xs|
  {
    if xs == [] {
      assert xs + ys == ys;
    } else {
      assert xs + ys == [xs[0]] + (xs[1..] + ys);
      assert xs == [xs[0]] + xs[1..];
      LoadBodyStep(t, xs[0], xs[1..] + ys);
      LoadBodyStep(t, xs[0], xs[1..]);
      assert Accepted(xs[0]);
      ApplyRowOutcome(t, xs[0]);
      var t1 := ApplyRow(t, xs[0]).value;
      assert forall i | 0 <= i < |xs[1..]| :: Accepted(xs[1..][i]) by {
        forall i | 0 <= i < |xs[1..]| ensures Accepted(xs[1..][i]) {
          assert xs[1..][i] == xs[i + 1];
        }
      }
      LoadBodyAppend(t1, xs[1..], ys);
    }
  }

  /** A row that cannot store genre `k`: it is skipped, or it names another genre. */
  predicate NamesOther(row: Row, k: string) {
    |row| == 2 ==> Strip(row[0]) != k
  }

  /** One row that does not name genre `k` leaves its count as it was. */
  lemma {:induction false} ApplyRowKeeps(t: Table, row: Row, k: string)
    requires Distinct(t) && k in AsMap(t) && NamesOther(row, k) && ApplyRow(t, row).Some?
    ensures k in AsMap(ApplyRow(t, row).value) && AsMap(ApplyRow(t, row).value)[k] == AsMap(t)[k]
  {
    if |row| == 2 {
      var k', v := Strip(row[0]), ParseInt(Strip(row[1])).value;
      assert ApplyRow(t, row).value == Assign(t, k', v) by {
        ReadGoodRow(t, row, v);
      }
      AssignMap(t, k', v);
    }
  }

  /** Rows that do not name genre `k` leave its count as it was. */
  lemma {:induction false} OtherRowsKeep(t: Table, rows: seq<Row>, k: string)
    requires Distinct(t) && k in AsMap(t)
    requires forall i | 0 <= i < |rows| :: NamesOther(rows[i], k)
    ensures k in AsMap(LoadBody(t, rows)) && AsMap(LoadBody(t, rows))[k] == AsMap(t)[k]
    decreases |rows|
  {
    if rows != [] {
      assert rows == [rows[0]] + rows[1..];
      LoadBodyStep(t, rows[0], rows[1..]);
      if ApplyRow(t, rows[0]).Some? {
        var t1 := ApplyRow(t, rows[0]).value;
        ApplyRowKeeps(t, rows[0], k);
        forall i | 0 <= i < |rows[1..]| ensures NamesOther(rows[1..][i], k) {
          assert rows[1..][i] == rows[i + 1];
        }
        OtherRowsKeep(t1, rows[1..], k);
      }
    }
  }

  /**
   * Whatever rows come before it, a good row for a genre sets that genre's
   * count, and rows after it that name other genres leave the count alone.
   */
  lemma {:induction false} LastRowWins(t: Table, before: seq<Row>, g: string, s: string, v: int, after: seq<Row>)
    requires Distinct(t) && forall i | 0 <= i < |before| :: Accepted(before[i])
    requires ParseInt(Strip(s)) == Some(v)
    requires forall i | 0 <= i < |after| :: NamesOther(after[i], Strip(g))
    ensures var m := AsMap(LoadBody(t, before + [[g, s]] + after));
      Strip(g) in m && m[Strip(g)] == v
  {
    var row: Row := [g, s];
    var k := Strip(g);
    AppendAssoc(before, [row], after);
    LoadBodyAppend(t, before, [row] + after);
    var t1 := LoadBody(t, before);
    var t2 := Assign(t1, k, v);
    ReadGoodRow(t1, row, v);
    LoadBodyStep(t1, row, after);
    assert LoadBody(t, before + [row] + after) == LoadBody(t2, after);
    AssignMap(t1, k, v);
    assert k in AsMap(t2) && AsMap(t2)[k] == v;
    OtherRowsKeep(t2, after, k);
  }

  // ---------------------------------------------------------------------
  // Saving, then loading into an empty dict, gives the dict back
  // ---------------------------------------------------------------------

  /** Reading one written item row gives back the item. */
  lemma {:induction false} ReadItemRow(t: Table, e: Entry)
    requires Distinct(t) && IsStripped(e.genre)
    ensures ApplyRow(t, ItemRow(e)) == Some(Assign(t, e.genre, e.listens))
  {
    StripIdempotent(FormatInt(e.listens));
    ParseFormatRoundTrip(e.listens);
  }

  lemma {:induction false} StorableSplit(acc: Table, t: Table)
    requires Storable(acc + t) && t != []
    ensures Distinct(acc) && t[0].genre !in Genres(acc) && IsStripped(t[0].genre)
    ensures acc + t == (acc + [t[0]]) + t[1..]
  {
    DistinctPrefix(acc, t);
    GenresAppend(acc, t);
    Uncons(t);
    assert Genres(acc + t)[|acc|] == t[0].genre;
  }

  lemma {:induction false} ItemRowsCons(t: Table)
    requires t != []
    ensures ItemRows(t) == [ItemRow(t[0])] + ItemRows(t[1..])
  {
    var a, b := ItemRows(t), [ItemRow(t[0])] + ItemRows(t[1..]);
    forall j | 0 <= j < |a| ensures a[j] == b[j] {
      assert a[j] == ItemRow(t[j]);
      if j > 0 {
        assert t[1..][j - 1] == t[j];
        assert b[j] == ItemRows(t[1..])[j - 1] == ItemRow(t[j]);
      }
    }
  }

  /** The rows written for the first `i + 1` entries: those for the first `i`, then one more. */
  lemma {:induction false} ItemRowsSnoc(t: Table, i: nat)
    requires i < |t|
    ensures [Header] + ItemRows(t[..i + 1]) == ([Header] + ItemRows(t[..i])) + [ItemRow(t[i])]
  {
    var a, b := ItemRows(t[..i + 1]), ItemRows(t[..i]) + [ItemRow(t[i])];
    forall j | 0 <= j < |a| ensures a[j] == b[j] {
    }
    assert a == b;
    AppendAssoc([Header], ItemRows(t[..i]), [ItemRow(t[i])]);
  }

  lemma {:induction false} LoadItemRows(acc: Table, t: Table)
    requires Storable(acc + t)
    ensures Distinct(acc) && LoadBody(acc, ItemRows(t)) == acc + t
    decreases |t|
  {
    if t == [] {
      assert acc + t == acc;
    } else {
      var e := t[0];
      StorableSplit(acc, t);
      ItemRowsCons(t);
      ReadItemRow(acc, e);
      AssignNew(acc, e.genre, e.listens);
      LoadBodyStep(acc, ItemRow(e), ItemRows(t[1..]));
      LoadItemRows(acc + [e], t[1..]);
    }
  }

  /**
   * Loading the rows `save_csv` writes into a fresh tracker reproduces the
   * dict: the same genres, in the same order, with the same counts.
   */
  lemma {:induction false} SaveLoadRoundTrip(t: Table)
    requires Storable(t)
    ensures Load([], [Header] + ItemRows(t)) == t
  {
    assert ([Header] + ItemRows(t))[1..] == ItemRows(t);
    assert [] + t == t;
    LoadItemRows([], t);
  }
}
