/**
 * Ordering and paging shared by the listing queries and the task registries:
 * SQLite's `ORDER BY` on text (code-point order), Python's stable `sorted`
 * with `reverse=True` on an integer key, SQLite's `LIMIT`/`OFFSET` window and
 * Python's floor division.
 */
module Listing {

  /** Lexicographic order on code points, which is SQLite's BINARY collation. */
  predicate StrLe(a: string, b: string)
    decreases |a|
  {
    if a == [] then true
    else if b == [] then false
    else if a[0] != b[0] then a[0] < b[0]
    else StrLe(a[1..], b[1..])
  }

  lemma {:induction false} StrLeTotal(a: string, b: string)
    ensures StrLe(a, b) || StrLe(b, a)
    decreases |a|
  {
    if a != [] && b != [] && a[0] == b[0] {
      StrLeTotal(a[1..], b[1..]);
    }
  }

  lemma {:induction false} StrLeTrans(a: string, b: string, c: string)
    requires StrLe(a, b) && StrLe(b, c)
    ensures StrLe(a, c)
    decreases |a|
  {
    if a != [] && b != [] && c != [] && a[0] == b[0] && b[0] == c[0] {
      StrLeTrans(a[1..], b[1..], c[1..]);
    }
  }

  lemma {:induction false} StrLeAntisym(a: string, b: string)
    requires StrLe(a, b) && StrLe(b, a)
    ensures a == b
    decreases |a|
  {
    if a != [] && b != [] {
      StrLeAntisym(a[1..], b[1..]);
      assert a == [a[0]] + a[1..] && b == [b[0]] + b[1..];
    }
  }

  // ---------------------------------------------------------------------
  // ORDER BY name: a stable insertion sort on a text key

  ghost predicate SortedByName<T>(s: seq<T>, key: T -> string) {
    forall i, j :: 0 <= i < j < |s| ==> StrLe(key(s[i]), key(s[j]))
  }

  function InsertByName<T>(x: T, s: seq<T>, key: T -> string): (r: seq<T>)
    ensures multiset(r) == multiset(s) + multiset{x}
    ensures |r| == |s| + 1
  {
    if s == [] then [x]
    else if StrLe(key(x), key(s[0])) then [x] + s
    else
      assert s == [s[0]] + s[1..];
      [s[0]] + InsertByName(x, s[1..], key)
  }

  function SortByName<T>(s: seq<T>, key: T -> string): (r: seq<T>)
    ensures multiset(r) == multiset(s)
    ensures |r| == |s|
  {
    if s == [] then []
    else
      assert s == [s[0]] + s[1..];
      InsertByName(s[0], SortByName(s[1..], key), key)
  }

  lemma {:induction false} InsertByNameSorted<T>(x: T, s: seq<T>, key: T -> string)
    requires SortedByName(s, key)
    ensures SortedByName(InsertByName(x, s, key), key)
  {
    var r := InsertByName(x, s, key);
    if s == [] {
    } else if StrLe(key(x), key(s[0])) {
      assert r == [x] + s;
      forall i, j | 0 <= i < j < |r| ensures StrLe(key(r[i]), key(r[j])) {
        assert r[j] == s[j - 1];
        if i == 0 {
          if j > 1 { StrLeTrans(key(x), key(s[0]), key(s[j - 1])); }
        } else {
          assert r[i] == s[i - 1];
        }
      }
    } else {
      StrLeTotal(key(x), key(s[0]));
      var t := InsertByName(x, s[1..], key);
      InsertByNameSorted(x, s[1..], key);
      assert r == [s[0]] + t;
      forall k | 0 <= k < |t| ensures StrLe(key(s[0]), key(t[k])) {
        assert t[k] in multiset(t);
        assert t[k] in multiset(s[1..]) || t[k] == x;
        if t[k] != x {
          var m :| 0 <= m < |s[1..]| && s[1..][m] == t[k];
          assert s[m + 1] == t[k];
        }
      }
      forall i, j | 0 <= i < j < |r| ensures StrLe(key(r[i]), key(r[j])) {
        assert r[j] == t[j - 1];
        if i > 0 {
          assert r[i] == t[i - 1];
        }
      }
    }
  }

  /** `ORDER BY name` yields the rows in name order, and exactly the rows given. */
  lemma {:induction false} SortByNameSorted<T>(s: seq<T>, key: T -> string)
    ensures SortedByName(SortByName(s, key), key)
    ensures multiset(SortByName(s, key)) == multiset(s)
  {
    if s != [] {
      SortByNameSorted(s[1..], key);
      InsertByNameSorted(s[0], SortByName(s[1..], key), key);
    }
  }

  // ---------------------------------------------------------------------
  // sorted(..., key=created_at, reverse=True): newest first, stable

  ghost predicate NewestFirst<T>(s: seq<T>, key: T -> int) {
    forall i, j :: 0 <= i < j < |s| ==> key(s[i]) >= key(s[j])
  }

  function InsertNewest<T>(x: T, s: seq<T>, key: T -> int): (r: seq<T>)
    ensures multiset(r) == multiset(s) + multiset{x}
    ensures |r| == |s| + 1
  {
    if s == [] then [x]
    else if key(x) >= key(s[0]) then [x] + s
    else
      assert s == [s[0]] + s[1..];
      [s[0]] + InsertNewest(x, s[1..], key)
  }

  function SortNewestFirst<T>(s: seq<T>, key: T -> int): (r: seq<T>)
    ensures multiset(r) == multiset(s)
    ensures |r| == |s|
  {
    if s == [] then []
    else
      assert s == [s[0]] + s[1..];
      InsertNewest(s[0], SortNewestFirst(s[1..], key), key)
  }

  lemma {:induction false} InsertNewestSorted<T>(x: T, s: seq<T>, key: T -> int)
    requires NewestFirst(s, key)
    ensures NewestFirst(InsertNewest(x, s, key), key)
  {
    if s != [] && key(x) < key(s[0]) {
      var t := InsertNewest(x, s[1..], key);
      InsertNewestSorted(x, s[1..], key);
      forall k | 0 <= k < |t| ensures key(s[0]) >= key(t[k]) {
        assert t[k] in multiset(t);
        if t[k] != x {
          assert t[k] in multiset(s[1..]);
          var m :| 0 <= m < |s[1..]| && s[1..][m] == t[k];
          assert s[m + 1] == t[k];
        }
      }
    }
  }

  /** The stable newest-first sort puts the newest first and keeps every element. */
  lemma {:induction false} SortNewestFirstSorted<T>(s: seq<T>, key: T -> int)
    ensures NewestFirst(SortNewestFirst(s, key), key)
    ensures multiset(SortNewestFirst(s, key)) == multiset(s)
  {
    if s != [] {
      SortNewestFirstSorted(s[1..], key);
      InsertNewestSorted(s[0], SortNewestFirst(s[1..], key), key);
    }
  }

  // ---------------------------------------------------------------------
  // LIMIT / OFFSET

  function Max0(x: int): nat { if x < 0 then 0 else x }

  /** SQLite's `LIMIT limit OFFSET offset`: a negative offset reads as 0 and a
      negative limit means no limit. */
  function Window<T>(s: seq<T>, offset: int, limit: int): (r: seq<T>)
    ensures |r| <= |s|
    ensures limit >= 0 ==> |r| <= limit
    ensures |r| == if Max0(offset) >= |s| then 0
                   else if limit < 0 || limit >= |s| - Max0(offset) then |s| - Max0(offset)
                   else limit
    ensures forall i :: 0 <= i < |r| ==> r[i] == s[Max0(offset) + i]
  {
    var o := Max0(offset);
    if o >= |s| then []
    else if limit < 0 || limit >= |s| - o then s[o..]
    else s[o..o + limit]
  }

  /** A window of a name-ordered sequence is name-ordered and draws on it. */
  lemma WindowOfSorted<T>(s: seq<T>, key: T -> string, offset: int, limit: int)
    requires SortedByName(s, key)
    ensures SortedByName(Window(s, offset, limit), key)
    ensures forall x :: x in Window(s, offset, limit) ==> x in s
  {
    var w := Window(s, offset, limit);
    assert forall i :: 0 <= i < |w| ==> w[i] == s[Max0(offset) + i];
  }

  lemma SameMembers<T>(a: seq<T>, b: seq<T>)
    requires multiset(a) == multiset(b)
    ensures forall x :: x in a ==> x in b
  {
    assert forall x :: x in a ==> x in multiset(a);
  }

  /** Python's `a // b`: the quotient rounded toward minus infinity. */
  function FloorDiv(a: int, b: int): (q: int)
    requires b != 0
    ensures b > 0 ==> b * q <= a < b * q + b
    ensures b < 0 ==> b * q >= a > b * q + b
  {
    if b > 0 then a / b else (-a) / (-b)
  }

  /** `(total + size - 1) // size` is the ceiling of total / size. */
  lemma CeilPages(total: nat, size: int)
    requires size > 0
    ensures var q := FloorDiv(total + size - 1, size);
      && (total == 0 ==> q == 0)
      && (total > 0 ==> (q - 1) * size < total <= q * size)
  {
    var q := FloorDiv(total + size - 1, size);
    assert size * q <= total + size - 1 < size * q + size;
    MulShift(q, size);
    if total == 0 {
      if q >= 1 {
        MulAtLeast(q, size);
      } else if q <= -1 {
        MulAtLeast(-q, size);
      }
    }
  }

  lemma MulShift(q: int, size: int)
    ensures (q - 1) * size == q * size - size && q * size == size * q && (-q) * size == -(q * size)
  {
  }

  lemma MulAtLeast(q: int, size: int)
    requires q >= 1 && size > 0
    ensures q * size >= size
  {
  }
}
