/**
 * The integer part of `get_statistics`: over `pd.Series(self.data)`, which
 * keeps the dict's order, it takes the sum, the length, the mean and
 * `idxmax` / `idxmin`, which name the first genre reaching the extreme.
 */
module Statistics {
  import opened Wrappers
  import opened OrderedTable

  datatype Summary = Summary(
    total: int,
    genres: nat,
    average: real,
    mostPopular: string,
    mostListens: int,
    leastPopular: string,
    leastListens: int)

  /** Position `i` is the first to reach the largest count. */
  predicate IsFirstMax(t: Table, i: int) {
    && 0 <= i < |t|
    && (forall j | 0 <= j < |t| :: t[j].listens <= t[i].listens)
    && (forall j | 0 <= j < i :: t[j].listens < t[i].listens)
  }

  /** Position `i` is the first to reach the smallest count. */
  predicate IsFirstMin(t: Table, i: int) {
    && 0 <= i < |t|
    && (forall j | 0 <= j < |t| :: t[i].listens <= t[j].listens)
    && (forall j | 0 <= j < i :: t[i].listens < t[j].listens)
  }

  /** `s.idxmax()` as a position. */
  function FirstMaxIndex(t: Table): (i: nat)
    requires t != []
    ensures IsFirstMax(t, i)
  {
    if |t| == 1 then 0
    else
      var k := FirstMaxIndex(t[..|t| - 1]);
      if t[k].listens < t[|t| - 1].listens then |t| - 1 else k
  }

  /** `s.idxmin()` as a position. */
  function FirstMinIndex(t: Table): (i: nat)
    requires t != []
    ensures IsFirstMin(t, i)
  {
    if |t| == 1 then 0
    else
      var k := FirstMinIndex(t[..|t| - 1]);
      if t[|t| - 1].listens < t[k].listens then |t| - 1 else k
  }

  /** At most one position is the first to reach the maximum. */
  lemma {:induction false} FirstMaxUnique(t: Table, i: int, j: int)
    requires IsFirstMax(t, i) && IsFirstMax(t, j)
    ensures i == j
  {
    assert t[i].listens == t[j].listens;
  }

  /**
   * `get_statistics`: nothing for an empty dict; otherwise the total, the
   * number of genres, the mean, and the first most and least popular genres.
   */
  function Summarize(t: Table): (r: Option<Summary>)
    ensures r.None? <==> t == []
    ensures r.Some? ==> r.value.total == Total(t) && r.value.genres == |t|
    ensures r.Some? ==> r.value.average == Mean(Total(t), |t|)
    ensures r.Some? ==> exists i | IsFirstMax(t, i) ::
      t[i].genre == r.value.mostPopular && t[i].listens == r.value.mostListens
    ensures r.Some? ==> exists i | IsFirstMin(t, i) ::
      t[i].genre == r.value.leastPopular && t[i].listens == r.value.leastListens
  {
    if t == [] then None
    else
      var hi, lo := FirstMaxIndex(t), FirstMinIndex(t);
      var r := Summary(Total(t), |t|, Mean(Total(t), |t|), t[hi].genre, t[hi].listens, t[lo].genre, t[lo].listens);
      assert IsFirstMax(t, hi) && t[hi].genre == r.mostPopular && t[hi].listens == r.mostListens;
      assert IsFirstMin(t, lo) && t[lo].genre == r.leastPopular && t[lo].listens == r.leastListens;
      Some(r)
  }

  /** `s.mean()` before rounding: the mean times the number of values gives back the sum. */
  function Mean(total: int, n: nat): (m: real)
    requires n > 0
    ensures m * (n as real) == total as real
  {
    total as real / n as real
  }

  /** The worked example: {Pop: 650, Rock: 350}. */
  lemma {:induction false} PopRockExample()
    ensures Summarize([Entry("Pop", 650), Entry("Rock", 350)])
      == Some(Summary(1000, 2, 500.0, "Pop", 650, "Rock", 350))
  {
  }
}
