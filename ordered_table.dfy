/**
 * The tracker's `self.data`: a Python dict from genre name to listen count.
 * A dict keeps its keys in insertion order, so it is modelled as a sequence
 * of entries with pairwise distinct genres; `AsMap` is its plain-map view.
 */
module OrderedTable {

  datatype Entry = Entry(genre: string, listens: int)

  type Table = seq<Entry>

  /** The keys in iteration order (`list(d.keys())`). */
  function Genres(t: Table): (r: seq<string>)
    ensures |r| == |t| && forall i | 0 <= i < |t| :: r[i] == t[i].genre
  {
    if t == [] then [] else [t[0].genre] + Genres(t[1..])
  }

  /** No genre occurs twice: what makes a sequence of entries a dict. */
  predicate Distinct(t: Table) {
    t == [] || (t[0].genre !in Genres(t[1..]) && Distinct(t[1..]))
  }

  /** The dict as an unordered map from genre to listens. */
  function AsMap(t: Table): (m: map<string, int>)
    ensures forall i | 0 <= i < |t| :: t[i].genre in m
  {
    if t == [] then map[] else AsMap(t[1..])[t[0].genre := t[0].listens]
  }

  /** The map's keys are exactly the genres of the entries. */
  lemma {:induction false} AsMapKeys(t: Table, g: string)
    ensures g in AsMap(t) <==> g in Genres(t)
  {
    if t != [] {
      Uncons(t);
      AsMapKeys(t[1..], g);
    }
  }

  /** In a dict, the map view sends the genre of every entry to that entry's count. */
  lemma {:induction false} AsMapAt(t: Table, i: nat)
    requires Distinct(t) && i < |t|
    ensures t[i].genre in AsMap(t) && AsMap(t)[t[i].genre] == t[i].listens
  {
    Uncons(t);
    if i > 0 {
      AsMapAt(t[1..], i - 1);
    }
  }

  lemma {:induction false} Uncons(t: Table)
    requires t != []
    ensures t == [t[0]] + t[1..]
    ensures Genres(t) == [t[0].genre] + Genres(t[1..])
    ensures Distinct(t) <==> t[0].genre !in Genres(t[1..]) && Distinct(t[1..])
  {
  }

  lemma {:induction false} Cons(e: Entry, t: Table)
    ensures ([e] + t)[0] == e && ([e] + t)[1..] == t
  {
  }

  lemma {:induction false} GenresAppend(a: Table, b: Table)
    ensures Genres(a + b) == Genres(a) + Genres(b)
  {
    if a != [] {
      assert (a + b)[1..] == a[1..] + b;
      GenresAppend(a[1..], b);
    } else {
      assert a + b == b;
    }
  }

  /** The front part of a dict is a dict, and none of its genres occurs later. */
  lemma {:induction false} DistinctPrefix(a: Table, b: Table)
    requires Distinct(a + b)
    ensures Distinct(a) && forall g | g in Genres(a) :: g !in Genres(b)
  {
    if a != [] {
      var ab := a + b;
      assert ab[0] == a[0] && ab[1..] == a[1..] + b;
      Uncons(ab);
      Uncons(a);
      GenresAppend(a[1..], b);
      DistinctPrefix(a[1..], b);
    }
  }

  /** `d.get(k, 0)`: the count of the entry for `k`, 0 when there is none. */
  function Held(t: Table, k: string): int {
    if t == [] then 0 else if t[0].genre == k then t[0].listens else Held(t[1..], k)
  }

  /** `Held` is the lookup in the map view, with 0 for a missing key. */
  lemma {:induction false} HeldIsLookup(t: Table, k: string)
    ensures Held(t, k) == if k in AsMap(t) then AsMap(t)[k] else 0
  {
    if t != [] && t[0].genre != k {
      HeldIsLookup(t[1..], k);
    }
  }

  /**
   * `d[k] = v`: an existing key keeps its place and takes the new value;
   * a new key is appended at the end of the iteration order.
   */
  function Assign(t: Table, k: string, v: int): (r: Table)
    requires Distinct(t)
    ensures Distinct(r)
    ensures Genres(r) == if k in Genres(t) then Genres(t) else Genres(t) + [k]
  {
    if t == [] then [Entry(k, v)]
    else
      Uncons(t);
      if t[0].genre == k then
        var r := [Entry(k, v)] + t[1..];
        Cons(Entry(k, v), t[1..]);
        Uncons(r);
        r
      else
        var rest := Assign(t[1..], k, v);
        var r := [t[0]] + rest;
        Cons(t[0], rest);
        Uncons(r);
        assert [t[0].genre] + (Genres(t[1..]) + [k]) == Genres(t) + [k];
        r
  }

  /** `d[k] = v` takes effect at the first entry when that entry holds `k`, and past it otherwise. */
  lemma {:induction false} AssignStep(t: Table, k: string, v: int)
    requires Distinct(t) && t != []
    ensures t[0].genre == k ==> Assign(t, k, v) == [Entry(k, v)] + t[1..]
    ensures t[0].genre != k ==> Distinct(t[1..]) && Assign(t, k, v) == [t[0]] + Assign(t[1..], k, v)
  {
    Uncons(t);
  }

  lemma UpdatesCommute<K, V>(m: map<K, V>, a: K, x: V, b: K, y: V)
    requires a != b
    ensures m[a := x][b := y] == m[b := y][a := x]
  {
  }

  lemma UpdateCommutesWithRemoval<K, V>(m: map<K, V>, a: K, b: K, y: V)
    requires a != b
    ensures (m - {a})[b := y] == m[b := y] - {a}
  {
  }

  /** After `d[k] = v` the map view is the old one with `k` sent to `v`. */
  lemma {:induction false} AssignMap(t: Table, k: string, v: int)
    requires Distinct(t)
    ensures AsMap(Assign(t, k, v)) == AsMap(t)[k := v]
  {
    if t == [] {
      assert [Entry(k, v)][1..] == [];
    } else {
      Uncons(t);
      if t[0].genre == k {
        Cons(Entry(k, v), t[1..]);
      } else {
        AssignMap(t[1..], k, v);
        Cons(t[0], Assign(t[1..], k, v));
        UpdatesCommute(AsMap(t[1..]), k, v, t[0].genre, t[0].listens);
      }
    }
  }

  /** After `d[k] = v`, `d.get(k, 0)` is `v`. */
  lemma {:induction false} HeldAfterAssign(t: Table, k: string, v: int)
    requires Distinct(t)
    ensures Held(Assign(t, k, v), k) == v
  {
    if t != [] {
      Uncons(t);
      if t[0].genre == k {
        Cons(Entry(k, v), t[1..]);
      } else {
        HeldAfterAssign(t[1..], k, v);
        Cons(t[0], Assign(t[1..], k, v));
      }
    }
  }

  /** `s` with every occurrence of `k` taken out, the rest in order. */
  function Without(s: seq<string>, k: string): seq<string> {
    if s == [] then [] else (if s[0] == k then [] else [s[0]]) + Without(s[1..], k)
  }

  lemma {:induction false} WithoutShrinks(s: seq<string>, k: string, x: string)
    ensures x in Without(s, k) ==> x in s && x != k
  {
    if s != [] {
      WithoutShrinks(s[1..], k, x);
    }
  }

  lemma {:induction false} WithoutAbsent(s: seq<string>, k: string)
    requires k !in s
    ensures Without(s, k) == s
  {
    if s != [] {
      WithoutAbsent(s[1..], k);
    }
  }

  /**
   * `del d[k]` (and nothing when `k` is absent): the other genres keep their
   * relative order and stay distinct.
   */
  function Remove(t: Table, k: string): (r: Table)
    requires Distinct(t)
    ensures Distinct(r)
    ensures Genres(r) == Without(Genres(t), k)
  {
    if t == [] then []
    else
      Uncons(t);
      if t[0].genre == k then
        WithoutAbsent(Genres(t[1..]), k);
        t[1..]
      else
        var rest := Remove(t[1..], k);
        var r := [t[0]] + rest;
        Cons(t[0], rest);
        WithoutShrinks(Genres(t[1..]), k, t[0].genre);
        Uncons(r);
        assert Genres(t)[1..] == Genres(t[1..]);
        r
  }

  /** After `del d[k]` the map view is the old one without `k`. */
  lemma {:induction false} RemoveMap(t: Table, k: string)
    requires Distinct(t)
    ensures AsMap(Remove(t, k)) == AsMap(t) - {k}
  {
    if t != [] {
      Uncons(t);
      if t[0].genre == k {
        AsMapKeys(t[1..], k);
      } else {
        RemoveMap(t[1..], k);
        Cons(t[0], Remove(t[1..], k));
        UpdateCommutesWithRemoval(AsMap(t[1..]), k, t[0].genre, t[0].listens);
      }
    }
  }

  /** Deleting a key that is no longer there changes nothing. */
  lemma {:induction false} RemoveTwice(t: Table, k: string)
    requires Distinct(t)
    ensures Remove(Remove(t, k), k) == Remove(t, k)
  {
    WithoutShrinks(Genres(t), k, k);
    RemoveAbsent(Remove(t, k), k);
  }

  lemma {:induction false} RemoveAbsent(t: Table, k: string)
    requires Distinct(t) && k !in Genres(t)
    ensures Remove(t, k) == t
  {
    if t != [] {
      Uncons(t);
      RemoveAbsent(t[1..], k);
      Cons(t[0], t[1..]);
    }
  }

  /** The sum of all listen counts (`sum(d.values())`). */
  function Total(t: Table): (r: int)
    ensures (forall i | 0 <= i < |t| :: 0 <= t[i].listens) ==> 0 <= r
  {
    if t == [] then 0 else t[0].listens + Total(t[1..])
  }

  /** Setting key `k` to `v` moves the total by `v` minus what `k` held (0 when absent). */
  lemma {:induction false} TotalAfterAssign(t: Table, k: string, v: int)
    requires Distinct(t)
    ensures Total(Assign(t, k, v)) == Total(t) - Held(t, k) + v
  {
    if t == [] {
      assert Total([Entry(k, v)]) == v;
    } else {
      Uncons(t);
      if t[0].genre == k {
        Cons(Entry(k, v), t[1..]);
      } else {
        TotalAfterAssign(t[1..], k, v);
        Cons(t[0], Assign(t[1..], k, v));
      }
    }
  }

  /** Deleting key `k` lowers the total by exactly what `k` held. */
  lemma {:induction false} TotalAfterRemove(t: Table, k: string)
    requires Distinct(t)
    ensures Total(Remove(t, k)) == Total(t) - Held(t, k)
  {
    if t != [] {
      Uncons(t);
      if t[0].genre == k {
        RemoveAbsent(t[1..], k);
      } else {
        TotalAfterRemove(t[1..], k);
        Cons(t[0], Remove(t[1..], k));
      }
    }
  }

  /** Assigning a key that is not yet there appends it. */
  lemma {:induction false} AssignNew(t: Table, k: string, v: int)
    requires Distinct(t) && k !in Genres(t)
    ensures Assign(t, k, v) == t + [Entry(k, v)]
  {
    if t != [] {
      Uncons(t);
      AssignNew(t[1..], k, v);
    }
  }

  /** A later assignment to the same key overwrites the earlier one. */
  lemma {:induction false} AssignTwice(t: Table, k: string, a: int, b: int)
    requires Distinct(t)
    ensures Assign(Assign(t, k, a), k, b) == Assign(t, k, b)
  {
    if t != [] {
      Uncons(t);
      if t[0].genre == k {
        Cons(Entry(k, a), t[1..]);
      } else {
        AssignTwice(t[1..], k, a, b);
        Cons(t[0], Assign(t[1..], k, a));
      }
    }
  }

  /** Deleting the key that was appended last gives back the dict from before. */
  lemma {:induction false} RemoveAppended(t: Table, k: string, v: int)
    requires Distinct(t) && k !in Genres(t)
    ensures Distinct(t + [Entry(k, v)])
    ensures Remove(t + [Entry(k, v)], k) == t
  {
    AssignNew(t, k, v);
    var r := t + [Entry(k, v)];
    if t == [] {
      assert r[1..] == [];
    } else {
      Uncons(t);
      Uncons(r);
      assert r[1..] == t[1..] + [Entry(k, v)];
      RemoveAppended(t[1..], k, v);
    }
  }
}
