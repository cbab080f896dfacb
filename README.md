# Genre popularity tracker — a Dafny model

This project models the `GenrePopularity` class of a small music-statistics
program. The class keeps a dictionary from genre name to cumulative listen
count. The dictionary is loaded from a two-column CSV record (`Genre,Listens`)
when the tracker is built. Every successful `add_genre` or `delete_genre`
writes it back at once. `get_statistics` reports the total, the number of
genres, the mean, and the most and least popular genre.

Modules:

- `Wrappers` (`wrappers.dfy`): `Option`, used wherever Python raises `ValueError`.
- `PyStrings` (`strings.dfy`): the Python string operations the class uses.
  These are `str.strip()` over Python's whitespace set and `str.title()` over
  ASCII letters. They also include `int()` of a string (optional sign, decimal
  digits, surrounding whitespace ignored), `int()` of a float (truncation toward
  zero) and `str()` of an integer. The whitespace `int()` skips is not quite
  that of `str.strip()`: the ASCII separators U+001C..U+001F are whitespace to
  `strip()` but not to `int()`, so `int("\x1c5")` raises while
  `int("\x1c5".strip())` is 5.
- `OrderedTable` (`ordered_table.dfy`): the dictionary. A Python dict keeps
  insertion order, so it is a sequence of `Entry(genre, listens)` with
  distinct genres. `AsMap` is its plain-map view and `Genres` its key order.
  `Assign` is `d[k] = v`, `Remove` is `del d[k]` and `Total` is the sum of
  the values.
- `CsvRows` (`csv_rows.dfy`): the record as a sequence of rows of fields.
  `Serialize` is what `save_csv` writes. `Load` is what `load_csv` does with
  what it reads.
- `Statistics` (`statistics.dfy`): the integer part of `get_statistics`.
- `Genre` (`genre.dfy`): name normalisation (`strip` then `title`), the
  coercion of the `count` argument, and the class itself. `CsvFile` is the
  file named by `csv_file`. `GenrePopularity` holds `data`, and its methods
  change `data` and the file in place.

The file is an object with two fields. `rows` is `None` when the file is
missing or cannot be opened for reading. `writable` says whether opening it
for writing succeeds. Whether the file system lets the program read or write
is thus an input of the model.

Points about the code's behaviour worth noting:

- Rows that do not have exactly two fields are skipped (`genre.py:26`). The
  load is not aborted.
- A count that `int()` rejects ends the load, and the entries read before it
  stay in the dictionary (`genre.py:28-33`). The load is not atomic.
- Counts may become negative: `add_genre` adds whatever integer it is given
  (`genre.py:51-56`).
- `load_csv` strips keys but does not title-case them. `UnnormalizedKeyUnreachable`
  shows that such a key can never be named by `add_genre` or `delete_genre`.

## Model

| member | source | states |
|---|---|---|
| `PyStrings.StripLeft` | genre.py:49 | the result is a suffix of the input, everything dropped is whitespace, and it does not start with whitespace |
| `PyStrings.StripRight` | genre.py:49 | the result is a prefix of the input, everything dropped is whitespace, and it does not end with whitespace |
| `PyStrings.Strip` | genre.py:49 | the result has no whitespace at either end, and a string without any is returned unchanged |
| `PyStrings.StripIsInfix` | genre.py:49 | the input is a run of whitespace, then the stripped string, then another run of whitespace |
| `PyStrings.LeadingRunIsSpace` | genre.py:49 | everything `lstrip` drops is whitespace |
| `PyStrings.TrailingRunIsSpace` | genre.py:49 | everything `rstrip` drops is whitespace |
| `PyStrings.StripIdempotent` | genre.py:28 | stripping twice is stripping once, so `strip()` leaves an already stripped field as it is |
| `PyStrings.StripLeftPadded` | genre.py:28 | `lstrip` drops a run of whitespace that stands before a non-space character, and nothing more |
| `PyStrings.StripRightPadded` | genre.py:28 | `rstrip` drops a run of whitespace that stands after a non-space character, and nothing more |
| `PyStrings.StripPadded` | genre.py:28 | `strip()` of a stripped string between two runs of whitespace is that string |
| `PyStrings.IntStripLeftFacts` | genre.py:51 | `int()` skips at the front only the whitespace it recognises, all of it, and what is left does not start with such whitespace |
| `PyStrings.IntStripRightFacts` | genre.py:51 | `int()` skips at the back only the whitespace it recognises, all of it, and what is left does not end with such whitespace |
| `PyStrings.IntStripIsInfix` | genre.py:51 | the input is a run of `int()`'s whitespace, then what `int()` reads, then another such run, and what it reads has none at either end |
| `PyStrings.IntStripKeepsStripped` | genre.py:28 | `int()` skips nothing around a string that `strip()` leaves as it is, so `int(listens.strip())` reads the whole stripped field |
| `PyStrings.StripAgreesWithIntStrip` | genre.py:51 | when what `int()` reads has no `str.isspace()` character at either end, `strip()` removes exactly what `int()` skips |
| `PyStrings.ParseIntIgnoresStrip` | genre.py:28 | whenever `int(s)` succeeds, `int(s.strip())` gives the same value |
| `PyStrings.ParseIntWithoutSeparators` | genre.py:28 | for a string without U+001C..U+001F, `int(s)` and `int(s.strip())` agree, failures included |
| `PyStrings.SeparatorRejected` | genre.py:51 | `int()` raises `ValueError` on any string holding one of U+001C..U+001F |
| `PyStrings.SeparatorNotSkipped` | genre.py:51 | such a separator before a run of digits is dropped by `strip()`, so `int(s.strip())` reads the digits, while `int(s)` raises |
| `PyStrings.TitleFrom` | genre.py:49 | each character is title-cased according to whether the character before it is a letter |
| `PyStrings.TitleCharFacts` | genre.py:49 | title-casing one character keeps it a letter or not, whitespace or not, and doing it twice is doing it once |
| `PyStrings.Title` | genre.py:49 | `str.title()`: a letter after a letter is lower-cased, any other letter upper-cased, and other characters are kept; length is preserved |
| `PyStrings.TitleIdempotent` | genre.py:49 | title-casing twice is title-casing once |
| `PyStrings.TitleKeepsStripped` | genre.py:49 | title-casing a stripped name leaves it stripped |
| `PyStrings.FormatNat` | genre.py:42 | `str(n)` is a non-empty run of decimal digits with no leading zero |
| `PyStrings.FormatInt` | genre.py:42 | `str(n)` is non-empty, starts with `-` exactly when `n` is negative, is decimal digits after that sign, and has no whitespace at either end |
| `PyStrings.DigitsValueOfFormat` | genre.py:42 | the digits written for `n` denote `n` |
| `PyStrings.ParseFormatRoundTrip` | genre.py:28 | `int(str(n)) == n` for every integer, negative ones included, and `str(n)` has no whitespace for `strip()` to remove (CPython's digit limit is not modelled, see Left out) |
| `PyStrings.ParseNegativeFormat` | genre.py:28 | `int(str(n)) == n` for a negative integer, written as `-` and the digits of `-n` |
| `PyStrings.ParseSigned` | genre.py:28 | once the whitespace is gone, `int()` accepts exactly an optional `+` or `-` followed by at least one decimal digit; a negative value comes only with a leading `-`, and a plain run of digits reads as its decimal value |
| `PyStrings.NegativeNumeralStripped` | genre.py:28 | a minus sign followed by digits has no whitespace for `strip()` or `int()` to remove |
| `PyStrings.SignedNumeralValue` | genre.py:28 | `int()` of `+` followed by a numeral is the numeral's value, and of `-` followed by a numeral its negation |
| `PyStrings.ParseIntRejectsBlank` | genre.py:51 | `int()` of the empty or an all-whitespace string raises `ValueError` (a string of `str.isspace()` characters, separators included) |
| `PyStrings.Truncate` | genre.py:51 | `int()` of a float truncates toward zero: it lies within 1 of the value, on the side of 0 |
| `OrderedTable.Genres` | genre.py:41 | the key order has one key per entry, in entry order |
| `OrderedTable.AsMap` | genre.py:11 | the map view has a key for the genre of every entry |
| `OrderedTable.AsMapKeys` | genre.py:52 | `k in d` exactly when `k` is one of the genres |
| `OrderedTable.AsMapAt` | genre.py:11 | in a dict, each entry's genre maps to that entry's count |
| `OrderedTable.GenresAppend` | genre.py:41 | the key order of two tables joined is the first one's keys, then the second one's |
| `OrderedTable.DistinctPrefix` | genre.py:11 | the front part of a dict is a dict, and none of its keys occurs again later |
| `OrderedTable.HeldIsLookup` | genre.py:52-56 | `d.get(k, 0)` is `d[k]` when `k in d` and 0 otherwise |
| `OrderedTable.Assign` | genre.py:28 | `d[k] = v`: keys stay distinct; an existing key keeps its place and a new key is appended last |
| `OrderedTable.AssignMap` | genre.py:28 | after `d[k] = v` the map view is the old one with `k` sent to `v` |
| `OrderedTable.HeldAfterAssign` | genre.py:28 | after `d[k] = v`, `d.get(k, 0)` is `v` |
| `OrderedTable.AssignNew` | genre.py:56 | assigning a key that is not yet present appends exactly that entry |
| `OrderedTable.AssignTwice` | genre.py:28 | a later assignment to the same key overwrites the earlier one |
| `OrderedTable.Remove` | genre.py:66 | `del d[k]`: keys stay distinct and the key order is the old one with `k` taken out, the rest in their relative order |
| `OrderedTable.RemoveMap` | genre.py:66 | after `del d[k]` the map view is the old one without `k` |
| `OrderedTable.RemoveAbsent` | genre.py:69-70 | removing a key that is not among the genres changes nothing |
| `OrderedTable.RemoveTwice` | genre.py:64-70 | a repeated delete is a no-op |
| `OrderedTable.RemoveAppended` | genre.py:66 | deleting the key appended last restores the dict from before |
| `OrderedTable.WithoutShrinks` | genre.py:66 | taking `k` out of a key order leaves only keys that were there and are not `k` |
| `OrderedTable.WithoutAbsent` | genre.py:69-70 | taking out a key that is not there leaves the key order as it was |
| `OrderedTable.TotalAfterAssign` | genre.py:82 | after `d[k] = v` the sum of counts moves by `v` minus what `k` held (0 if absent) |
| `OrderedTable.TotalAfterRemove` | genre.py:82 | after `del d[k]` the sum of counts drops by exactly what `k` held |
| `OrderedTable.Total` | genre.py:82 | `s.sum()`: with no negative count, the sum is not negative |
| `CsvRows.ApplyRow` | genre.py:26-28 | one row keeps the dict a dict and keeps every key it had, in order |
| `CsvRows.ApplyRowOutcome` | genre.py:26-28 | a row yields no dict exactly when it has two fields and `int()` rejects its count; a row without two fields leaves the dict as it was |
| `CsvRows.LoadBodyStep` | genre.py:25-28 | loading rows is applying the first row, then loading the rest from the result; a rejected count stops there |
| `CsvRows.LoadBodyAt` | genre.py:25-28 | the same step at any row of the record, as the loop of `load_csv` takes it |
| `CsvRows.LoadBody` | genre.py:25-28 | the rows after the header are stored one by one: keys stay distinct and keys already present stay first, in order |
| `CsvRows.Load` | genre.py:18-28 | `load_csv` keeps keys distinct and keys already present first, in order; a record of at most one row (the header) changes nothing |
| `CsvRows.LoadBodyAppend` | genre.py:25-28 | when no row of a first part has a rejected count, loading it and then the rest is loading the whole |
| `CsvRows.ApplyRowKeeps` | genre.py:26-28 | a row that does not name genre `k` leaves `k`'s count as it was |
| `CsvRows.OtherRowsKeep` | genre.py:25-28 | rows that do not name genre `k` leave `k`'s count as it was |
| `CsvRows.LastRowWins` | genre.py:25-28 | whatever good rows come before it, a good row for a genre sets its count, and later rows naming other genres leave that count alone |
| `CsvRows.LoadKeepsStorable` | genre.py:28 | every key that loading adds has been stripped |
| `CsvRows.AssignKeepsStorable` | genre.py:28 | storing a stripped genre keeps every key stripped and distinct |
| `CsvRows.RemoveKeepsStorable` | genre.py:66 | deleting a genre keeps every key stripped and distinct |
| `CsvRows.LoadTwoRows` | genre.py:25-28 | a worked case of `LoadBodyAppend`: two good rows in a row are applied one after the other |
| `CsvRows.FirstRowDiscarded` | genre.py:24 | the first row is dropped whatever it holds |
| `CsvRows.MalformedRowSkipped` | genre.py:26 | a row without exactly two fields has no effect on the load |
| `CsvRows.BadCountStopsLoad` | genre.py:28-33 | a row whose count `int()` rejects ends the load; the rows before it stay loaded and the rows after it are not read |
| `CsvRows.LaterDuplicateWins` | genre.py:28 | a worked case of `LastRowWins`, stated on the whole dict: two consecutive rows for the same stripped genre that end the record leave the dict with the later count, not the sum |
| `CsvRows.ReadGoodRow` | genre.py:26-28 | a two-field row with a valid count assigns the stripped genre that count |
| `CsvRows.ReadItemRow` | genre.py:40-42 | reading a row that `save_csv` wrote assigns that entry back |
| `CsvRows.ItemRow` | genre.py:41-42 | the row written for an item has two fields, the genre and then `str(listens)`, and the count field reads back through `int()` as the item's count |
| `CsvRows.ItemRows` | genre.py:41-42 | one row is written per entry |
| `CsvRows.ItemRowsCons` | genre.py:41-42 | the rows written for a dict are the first entry's row, then the rows for the rest |
| `CsvRows.ItemRowsSnoc` | genre.py:41-42 | the rows written for the first `i + 1` entries are those for the first `i`, then one more |
| `CsvRows.Serialize` | genre.py:38-42 | `save_csv` writes the header row first, then one item row per entry in dict order, and loading what it writes into an empty dict of stripped keys gives the dict back |
| `CsvRows.StorableSplit` | genre.py:41-42 | in a dict of stripped keys, the next entry to be written back has a stripped key not yet among those before it |
| `CsvRows.LoadItemRows` | genre.py:25-42 | loading the rows written for some entries after the ones already present appends exactly those entries |
| `CsvRows.SaveLoadRoundTrip` | genre.py:24-42 | loading the header and item rows `save_csv` writes into an empty dict gives the same genres, counts and order |
| `Statistics.FirstMaxIndex` | genre.py:86 | `idxmax`: the position's count is the largest, and every earlier count is strictly smaller |
| `Statistics.FirstMinIndex` | genre.py:87 | `idxmin`: the position's count is the smallest, and every earlier count is strictly larger |
| `Statistics.FirstMaxUnique` | genre.py:86 | the first-occurrence maximum is unique, so the tie-break is deterministic |
| `Statistics.Summarize` | genre.py:76-88 | nothing is computed for an empty dict; otherwise the total is the sum, the count is the size, the average is `Mean` of the two, and most and least popular are the first genres to reach the maximum and minimum |
| `Statistics.Mean` | genre.py:88 | the mean times the number of genres gives back the total |
| `Statistics.PopRockExample` | genre.py:81-88 | for Pop 650 and Rock 350: total 1000, mean 500, most popular Pop, least popular Rock |
| `Genre.Normalize` | genre.py:49 | a normalised name is stripped |
| `Genre.NormalizeIdempotent` | genre.py:64 | normalising a normalised name changes nothing, so a stored key deletes itself |
| `Genre.UnnormalizedKeyUnreachable` | genre.py:28 | a loaded key that normalisation would change is never the key `add_genre` or `delete_genre` looks up |
| `Genre.ToInt` | genre.py:51 | `int()` keeps an int, truncates a float toward zero (never past it and less than 1 away), and rejects `""` |
| `Genre.CountCoercion` | genre.py:51 | `int()` keeps an int, reads back any written count, and rejects `""` |
| `Genre.RejectedCountStrings` | genre.py:51 | `int()` rejects a count string of whitespace only and one holding a separator U+001C..U+001F anywhere |
| `Genre.Accumulate` | genre.py:52-56 | the added genre's count (`d.get(k, 0)`) grows by exactly the count |
| `Genre.AccumulateIsAssign` | genre.py:52-56 | both branches of `add_genre` are `d[k] = d.get(k, 0) + count` |
| `Genre.AccumulateNew` | genre.py:55-56 | a genre that is not yet a key is appended last with the count |
| `Genre.AccumulateKeys` | genre.py:52-56 | an existing genre keeps its place; a new genre goes last, after the others in their old order |
| `Genre.AccumulateDistinct` | genre.py:52-56 | keys stay distinct |
| `Genre.AccumulateKeepsStorable` | genre.py:49-56 | adding a stripped genre keeps every key stripped and distinct |
| `Genre.AccumulateMap` | genre.py:52-56 | only the added genre's count changes, to what it held (0 when new) plus the count |
| `Genre.AccumulateTotal` | genre.py:52-56 | the sum of the counts grows by exactly the count |
| `Genre.AccumulateTwice` | genre.py:53 | two adds to the same genre equal one add of the sum |
| `Genre.DeleteUndoesAdd` | genre.py:47-70 | deleting a name right after adding it as a new genre restores the dict, even when the stored key is passed |
| `Genre.CsvFile.constructor` | genre.py:12 | the file named by `csv_file` holds the given rows (or none) and is or is not writable, as given |
| `Genre.GenrePopularity.constructor` | genre.py:10-13 | a new tracker holds what loading the file into an empty dict gives, or nothing if there is no file |
| `Genre.GenrePopularity.LoadCsv` | genre.py:18-33 | a missing file leaves `data` alone; otherwise `data` becomes `Load(old data, rows)`: header skipped, bad rows skipped, a bad count stops |
| `Genre.GenrePopularity.StoreRow` | genre.py:25-28 | one pass of the loop: `data` becomes what `ApplyRow` gives, and stays as it was when the count is rejected |
| `Genre.GenrePopularity.SaveCsv` | genre.py:35-45 | a writable file is rewritten with the header and one row per entry in order; otherwise it is untouched; `data` never changes |
| `Genre.GenrePopularity.AddGenre` | genre.py:47-60 | a rejected count changes nothing and saves nothing; otherwise the dict becomes `Accumulate` of the normalised name and the count, an existing genre keeps its place and a new one is appended last, the total grows by the count, and the file is saved |
| `Genre.GenrePopularity.DeleteGenre` | genre.py:62-70 | a present normalised key is removed, the others keep their order, the total drops by its count, and the file is saved; an absent one changes nothing and saves nothing |

## Left out

- Console output (the `print` calls, including `display_current_data`) is not modelled, and neither is a failure to write it. The `print` calls at genre.py:54 and genre.py:57 run inside `add_genre`'s `try` after the dict has changed. Where standard output cannot encode their emoji, `UnicodeEncodeError` (a kind of `ValueError`) is raised there, the invalid-count message is printed, and `save_csv` is skipped. The `print` at genre.py:67 is not inside any `try`, so `delete_genre` then raises after the `del` and skips the save. The model assumes every `print` succeeds.
- `plot_bar_chart`: chart rendering and `savefig` belong to matplotlib and are file output. Its pandas sort is not guaranteed stable, so the order of ties cannot be stated.
- The floating-point results of `get_statistics`: the mean is the exact rational `total / size` here, not a float formatted to two places, and the percentage shares are not modelled. When the total is 0 (every count 0, or negative counts cancelling positive ones, such as Pop 5 and Rock -5) the percentage loop at genre.py:103 divides by 0, which the model does not cover.
- `Statistics.Summarize`: the sum is an unbounded integer; pandas sums in 64-bit integers, so totals beyond that range wrap around there and not here.
- The csv module's quoting, escaping and line endings: the record is the sequence of rows the writer emits and the reader returns.
- `open` failures are inputs of the model (`rows = None`, `writable = false`). A write that fails after the file was opened and truncated is not modelled.
- `PyStrings.ParseInt` accepts only ASCII decimal digits: underscores between digits and non-ASCII digits, which `int()` also accepts, are not modelled.
- `PyStrings.Title` treats only ASCII letters as cased: `str.title()` on other letters is not modelled.
- `Genre.ToInt` covers ints, finite floats and strings: NaN and infinite floats (where `int()` raises `ValueError` or `OverflowError`) and other argument types are not modelled.
- The sample script at the end of `genre.py` runs at import time and only drives the class.
- `PyStrings.ParseInt`: CPython's limit on integer string conversion (`sys.get_int_max_str_digits()`, 4300 digits by default) is not modelled. `int()` of a longer numeral raises `ValueError`, which at genre.py:28 ends the load. The model reads numerals of any length.
- `PyStrings.FormatInt`: under the same limit, `str(n)` raises `ValueError` when `n` has more than 4300 digits. At genre.py:42 that error is caught at genre.py:44 after the file was opened and truncated. The model writes every integer.
- `PyStrings.ParseFormatRoundTrip`: holds for integers within the digit limit only.
- `Genre.GenrePopularity.SaveCsv`: writes the whole of `Serialize(data)`. It does not model the truncated file left when `str()` of a count over the digit limit fails partway.
- `CsvRows.Serialize`: its round-trip clause makes the same assumptions as `SaveLoadRoundTrip`, on the line below.
- `CsvRows.SaveLoadRoundTrip`: assumes every count is within the digit limit and every genre name is within the csv reader's `field_size_limit` (131072 characters by default). A longer name is written but makes the reader raise `csv.Error` when the file is read back, which ends the load.
