/**
 * The order `findBestMove` puts its moves in: `Array.prototype.sort` with a
 * comparator on one integer key per move, highest first. The sort is
 * stable, so moves with equal keys keep the order they had.
 */
module Ordering {
  import opened Board

  /** Highest key first. */
  ghost predicate Descending(ms: seq<Move>, key: Move -> int) {
    forall i, j :: 0 <= i < j < |ms| ==> key(ms[j]) <= key(ms[i])
  }

  /** The moves of `ms` whose key is v, in the order `ms` lists them. */
  ghost function KeyFilter(ms: seq<Move>, key: Move -> int, v: int): (r: seq<Move>)
    ensures |r| <= |ms|
    ensures forall i :: 0 <= i < |r| ==> key(r[i]) == v
  {
    if ms == [] then []
    else (if key(ms[0]) == v then [ms[0]] else []) + KeyFilter(ms[1..], key, v)
  }

  /**
   * `sorted` is `ms` after a stable sort by `key`, highest first: the same
   * moves, descending, and the moves of each key in their original order.
   */
  ghost predicate StableSorted(ms: seq<Move>, sorted: seq<Move>, key: Move -> int) {
    && multiset(sorted) == multiset(ms)
    && Descending(sorted, key)
    && forall v :: KeyFilter(sorted, key, v) == KeyFilter(ms, key, v)
  }

  lemma {:induction false} KeyFilterAppend(a: seq<Move>, b: seq<Move>, key: Move -> int, v: int)
    ensures KeyFilter(a + b, key, v) == KeyFilter(a, key, v) + KeyFilter(b, key, v)
  {
    if a == [] {
      assert a + b == b;
    } else {
      var h := if key(a[0]) == v then [a[0]] else [];
      assert (a + b)[0] == a[0];
      assert (a + b)[1..] == a[1..] + b;
      KeyFilterAppend(a[1..], b, key, v);
      calc {
        KeyFilter(a + b, key, v);
        h + KeyFilter(a[1..] + b, key, v);
        h + (KeyFilter(a[1..], key, v) + KeyFilter(b, key, v));
        (h + KeyFilter(a[1..], key, v)) + KeyFilter(b, key, v);
      }
    }
  }

  lemma {:induction false} KeyFilterNone(ms: seq<Move>, key: Move -> int, v: int)
    requires forall i :: 0 <= i < |ms| ==> key(ms[i]) != v
    ensures KeyFilter(ms, key, v) == []
  {
    if ms != [] {
      KeyFilterNone(ms[1..], key, v);
    }
  }

  /** A move whose key is v heads the filter of a list it heads. */
  lemma KeyFilterHead(ms: seq<Move>, key: Move -> int)
    requires ms != []
    ensures KeyFilter(ms, key, key(ms[0])) == [ms[0]] + KeyFilter(ms[1..], key, key(ms[0]))
  {
  }

  /** The filter keeps moves of the list only. */
  lemma {:induction false} KeyFilterIn(ms: seq<Move>, key: Move -> int, v: int)
    ensures forall m :: m in KeyFilter(ms, key, v) ==> m in ms
  {
    if ms != [] {
      KeyFilterIn(ms[1..], key, v);
    }
  }

  /** A key occurs in a list exactly when its filter is not empty. */
  lemma {:induction false} KeyFilterHas(ms: seq<Move>, key: Move -> int, i: int)
    requires 0 <= i < |ms|
    ensures KeyFilter(ms, key, key(ms[i])) != []
  {
    if i > 0 {
      KeyFilterHas(ms[1..], key, i - 1);
    }
  }

  /**
   * Putting `x` between the moves keyed at least as high and those keyed
   * lower keeps a descending list descending.
   */
  lemma InsertKeepsOrder(sorted: seq<Move>, x: Move, j: int, key: Move -> int)
    requires Descending(sorted, key) && 0 <= j <= |sorted|
    requires j > 0 ==> key(sorted[j - 1]) >= key(x)
    requires forall i :: j <= i < |sorted| ==> key(sorted[i]) < key(x)
    ensures Descending(sorted[..j] + [x] + sorted[j..], key)
  {
    var r := sorted[..j] + [x] + sorted[j..];
    forall i, i' | 0 <= i < i' < |r|
      ensures key(r[i']) <= key(r[i])
    {
      var a := if i < j then sorted[i] else if i == j then x else sorted[i - 1];
      var a' := if i' < j then sorted[i'] else if i' == j then x else sorted[i' - 1];
      assert r[i] == a;
      assert r[i'] == a';
      if i' == j {
        assert key(sorted[i]) >= key(sorted[j - 1]);
      }
    }
  }

  /** The insertion adds exactly `x`. */
  lemma InsertMultiset(sorted: seq<Move>, x: Move, j: int)
    requires 0 <= j <= |sorted|
    ensures multiset(sorted[..j] + [x] + sorted[j..]) == multiset(sorted) + multiset{x}
  {
    assert sorted == sorted[..j] + sorted[j..];
  }

  /** No move after the insertion point has the key of `x`. */
  lemma InsertTail(sorted: seq<Move>, x: Move, j: int, key: Move -> int)
    requires 0 <= j <= |sorted|
    requires forall i :: j <= i < |sorted| ==> key(sorted[i]) < key(x)
    ensures KeyFilter(sorted[j..], key, key(x)) == []
  {
    var back := sorted[j..];
    forall i | 0 <= i < |back|
      ensures key(back[i]) != key(x)
    {
      assert back[i] == sorted[j + i];
    }
    KeyFilterNone(back, key, key(x));
  }

  /** The filters of the pieces around the insertion point. */
  lemma InsertPieces(sorted: seq<Move>, x: Move, j: int, key: Move -> int, v: int)
    requires 0 <= j <= |sorted|
    ensures KeyFilter(sorted[..j] + [x] + sorted[j..], key, v)
            == KeyFilter(sorted[..j], key, v) + KeyFilter([x], key, v) + KeyFilter(sorted[j..], key, v)
    ensures KeyFilter(sorted, key, v) == KeyFilter(sorted[..j], key, v) + KeyFilter(sorted[j..], key, v)
  {
    var front, back := sorted[..j], sorted[j..];
    assert sorted == front + back;
    KeyFilterAppend(front + [x], back, key, v);
    KeyFilterAppend(front, [x], key, v);
    KeyFilterAppend(front, back, key, v);
  }

  /** Two of three pieces commute when one of them is empty. */
  lemma Regroup(f: seq<Move>, e: seq<Move>, k: seq<Move>)
    requires e == [] || k == []
    ensures f + e + k == f + k + e
  {
  }

  /** A single move passes the filter of its own key only. */
  lemma KeyFilterSingle(x: Move, key: Move -> int, v: int)
    ensures KeyFilter([x], key, v) == if key(x) == v then [x] else []
  {
    assert [x][1..] == [];
  }

  /**
   * Putting `x` after every move keyed at least as high puts it last among
   * the moves of its key, and moves no other key's moves.
   */
  lemma InsertStable(sorted: seq<Move>, x: Move, j: int, key: Move -> int, v: int)
    requires 0 <= j <= |sorted|
    requires forall i :: j <= i < |sorted| ==> key(sorted[i]) < key(x)
    ensures KeyFilter(sorted[..j] + [x] + sorted[j..], key, v) == KeyFilter(sorted, key, v) + KeyFilter([x], key, v)
  {
    InsertPieces(sorted, x, j, key, v);
    KeyFilterSingle(x, key, v);
    if v == key(x) {
      InsertTail(sorted, x, j, key);
    }
    Regroup(KeyFilter(sorted[..j], key, v), KeyFilter([x], key, v), KeyFilter(sorted[j..], key, v));
  }

  /**
   * The stable order is unique: two descending lists that list the moves
   * of every key in the same order are the same list.
   */
  lemma {:induction false} FiltersDetermine(s: seq<Move>, t: seq<Move>, key: Move -> int)
    requires Descending(s, key) && Descending(t, key)
    requires forall v :: KeyFilter(s, key, v) == KeyFilter(t, key, v)
    ensures s == t
  {
    if s == [] && t != [] {
      KeyFilterHas(t, key, 0);
    } else if s != [] && t == [] {
      KeyFilterHas(s, key, 0);
    } else if s != [] {
      var v, w := key(s[0]), key(t[0]);
      KeyFilterHas(t, key, 0);
      var fw := KeyFilter(s, key, w);
      KeyFilterIn(s, key, w);
      assert fw != [] && fw[0] in s && key(fw[0]) == w;
      KeyFilterHas(s, key, 0);
      var fv := KeyFilter(t, key, v);
      KeyFilterIn(t, key, v);
      assert fv != [] && fv[0] in t && key(fv[0]) == v;
      assert v == w;
      KeyFilterHead(s, key);
      KeyFilterHead(t, key);
      assert s[0] == t[0];
      forall u
        ensures KeyFilter(s[1..], key, u) == KeyFilter(t[1..], key, u)
      {
        var h := if u == v then [s[0]] else [];
        assert KeyFilter(s, key, u) == h + KeyFilter(s[1..], key, u);
        assert KeyFilter(t, key, u) == h + KeyFilter(t[1..], key, u);
        assert KeyFilter(s[1..], key, u) == KeyFilter(s, key, u)[|h|..];
        assert KeyFilter(t[1..], key, u) == KeyFilter(t, key, u)[|h|..];
      }
      FiltersDetermine(s[1..], t[1..], key);
    }
  }

  /** A stable sort has exactly one possible result. */
  lemma StableSortUnique(ms: seq<Move>, s: seq<Move>, t: seq<Move>, key: Move -> int)
    requires StableSorted(ms, s, key) && StableSorted(ms, t, key)
    ensures s == t
  {
    FiltersDetermine(s, t, key);
  }
}
