/**
 * The parts of the database's query semantics the backend handlers rely on:
 * `LIKE` pattern matching, ordering rows by a text column, listing a table's ids,
 * and taking the first row that matches a condition (`.limit(1)`).
 *
 * A table is a map from its serial id to its row; every id is below the table's
 * next serial value, so a scan of `0 .. bound` visits every row.
 */
module Sql {
  import opened Common

  /** Characters with a meaning of their own in a `LIKE` pattern (backslash is the default escape). */
  predicate IsWildcard(c: char) {
    c == '%' || c == '_' || c == '\\'
  }

  predicate Literal(p: string) {
    forall i :: 0 <= i < |p| ==> !IsWildcard(p[i])
  }

  /** `s LIKE pat`: `%` matches any run of characters, `_` any one character, `\x` the character x. */
  predicate Like(s: string, pat: string)
    decreases |pat|, |s|
  {
    if pat == [] then s == []
    else if pat[0] == '%' then Like(s, pat[1..]) || (s != [] && Like(s[1..], pat))
    else if pat[0] == '_' then s != [] && Like(s[1..], pat[1..])
    else if pat[0] == '\\' && |pat| >= 2 then s != [] && s[0] == pat[1] && Like(s[1..], pat[2..])
    else s != [] && s[0] == pat[0] && Like(s[1..], pat[1..])
  }

  lemma {:induction false} PercentMatchesAll(s: string)
    ensures Like(s, "%")
    decreases |s|
  {
    assert "%"[1..] == [];
    if s != [] {
      PercentMatchesAll(s[1..]);
    }
  }

  /** A leading `%` lets the rest of the pattern match any suffix. */
  lemma {:induction false} LeadingPercent(s: string, q: string)
    ensures Like(s, ['%'] + q) <==> exists i :: 0 <= i <= |s| && Like(s[i..], q)
    decreases |s|
  {
    var pat := ['%'] + q;
    assert pat[1..] == q;
    assert s[0..] == s;
    if s != [] {
      LeadingPercent(s[1..], q);
      if Like(s[1..], pat) {
        var i :| 0 <= i <= |s[1..]| && Like(s[1..][i..], q);
        assert s[1..][i..] == s[i + 1..];
      }
      if i :| 0 <= i <= |s| && Like(s[i..], q) {
        if i > 0 {
          assert s[1..][i - 1..] == s[i..];
        }
      }
    }
  }

  /** A pattern that starts with literal text matches exactly the strings that start with that text. */
  lemma {:induction false} LiteralPrefix(p: string, s: string, rest: string)
    requires Literal(p)
    ensures Like(s, p + rest) <==> IsPrefix(p, s) && Like(s[|p|..], rest)
    decreases |p|
  {
    if p == [] {
      assert p + rest == rest;
      assert s[0..] == s;
    } else {
      assert (p + rest)[0] == p[0];
      assert (p + rest)[1..] == p[1..] + rest;
      assert Literal(p[1..]) by {
        forall i | 0 <= i < |p[1..]| ensures !IsWildcard(p[1..][i]) {
          assert p[1..][i] == p[i + 1];
        }
      }
      if s != [] {
        LiteralPrefix(p[1..], s[1..], rest);
        if IsPrefix(p, s) {
          assert s[1..][..|p| - 1] == p[1..];
          assert s[1..][|p| - 1..] == s[|p|..];
        }
        if s[0] == p[0] && IsPrefix(p[1..], s[1..]) {
          assert s[..|p|] == [s[0]] + s[1..][..|p| - 1];
          assert s[1..][|p| - 1..] == s[|p|..];
        }
      }
    }
  }

  /** `LIKE '%' || p || '%'` with literal `p` is substring search. */
  lemma SurroundedLiteralIsSubstring(s: string, p: string)
    requires Literal(p)
    ensures Like(s, "%" + p + "%") <==> Contains(s, p)
  {
    assert "%" + p + "%" == ['%'] + (p + "%");
    LeadingPercent(s, p + "%");
    forall i | 0 <= i <= |s|
      ensures Like(s[i..], p + "%") <==> IsPrefix(p, s[i..])
    {
      LiteralPrefix(p, s[i..], "%");
      if IsPrefix(p, s[i..]) {
        PercentMatchesAll(s[i..][|p|..]);
      }
    }
  }

  /** `LIKE '%_%'` holds for every non-empty string: `_` in the text is a wildcard. */
  lemma UnderscoreMatchesAnything(s: string)
    ensures Like(s, "%" + "_" + "%") <==> s != []
  {
    assert "%" + "_" + "%" == ['%'] + "_%";
    LeadingPercent(s, "_%");
    assert "_%"[1..] == "%";
    if s != [] {
      PercentMatchesAll(s[1..]);
      assert s[0..] == s;
    }
  }

  /** Code-point order on strings; a proper prefix comes first. */
  predicate LexLe(a: string, b: string)
    decreases |a|
  {
    if a == [] then true
    else if b == [] then false
    else if a[0] != b[0] then a[0] < b[0]
    else LexLe(a[1..], b[1..])
  }

  lemma {:induction false} LexTotal(a: string, b: string)
    ensures LexLe(a, b) || LexLe(b, a)
    decreases |a|
  {
    if a != [] && b != [] && a[0] == b[0] {
      LexTotal(a[1..], b[1..]);
    }
  }

  lemma {:induction false} LexTransitive(a: string, b: string, c: string)
    requires LexLe(a, b) && LexLe(b, c)
    ensures LexLe(a, c)
    decreases |a|
  {
    if a != [] && b != [] && c != [] && a[0] == b[0] && b[0] == c[0] {
      LexTransitive(a[1..], b[1..], c[1..]);
    }
  }

  /** Neighbouring elements are in order of their keys. */
  predicate SortedBy<T>(s: seq<T>, key: T -> string) {
    forall i :: 0 < i < |s| ==> LexLe(key(s[i - 1]), key(s[i]))
  }

  function InsertBy<T>(x: T, sorted: seq<T>, key: T -> string): (r: seq<T>)
    ensures multiset(r) == multiset(sorted) + multiset{x}
    ensures |r| == |sorted| + 1
    ensures r[0] == x || (sorted != [] && r[0] == sorted[0])
    ensures SortedBy(sorted, key) ==> SortedBy(r, key)
  {
    if sorted == [] || LexLe(key(x), key(sorted[0])) then [x] + sorted
    else
      var rest := InsertBy(x, sorted[1..], key);
      assert sorted == [sorted[0]] + sorted[1..];
      LexTotal(key(x), key(sorted[0]));
      [sorted[0]] + rest
  }

  /** `ORDER BY key`: the rows, rearranged so that their keys ascend. */
  function SortBy<T>(s: seq<T>, key: T -> string): (r: seq<T>)
    ensures multiset(r) == multiset(s)
    ensures |r| == |s|
    ensures SortedBy(r, key)
  {
    if s == [] then []
    else
      assert s == [s[0]] + s[1..];
      InsertBy(s[0], SortBy(s[1..], key), key)
  }

  /** In a sorted sequence every earlier key is at most every later one. */
  lemma {:induction false} SortedPairwise<T>(s: seq<T>, key: T -> string, i: nat, j: nat)
    requires SortedBy(s, key)
    requires i <= j < |s|
    ensures LexLe(key(s[i]), key(s[j]))
    decreases j - i
  {
    if i == j {
      LexReflexive(key(s[i]));
    } else {
      SortedPairwise(s, key, i, j - 1);
      LexTransitive(key(s[i]), key(s[j - 1]), key(s[j]));
    }
  }

  lemma {:induction false} LexReflexive(a: string)
    ensures LexLe(a, a)
    decreases |a|
  {
    if a != [] {
      LexReflexive(a[1..]);
    }
  }

  /** The ids of `m` below `bound`, ascending. */
  function IdsBelow<R>(m: map<nat, R>, bound: nat): (ids: seq<nat>)
    ensures forall i :: 0 <= i < |ids| ==> ids[i] in m && ids[i] < bound
    ensures forall i, j :: 0 <= i < j < |ids| ==> ids[i] < ids[j]
    ensures forall k :: k in m && k < bound ==> k in ids
  {
    if bound == 0 then []
    else IdsBelow(m, bound - 1) + (if bound - 1 in m then [bound - 1] else [])
  }

  /** `select f(row) from m order by key`: each row's projection once, in ascending key order. */
  function OrderedRows<R, V(==)>(m: map<nat, R>, bound: nat, f: R -> V, key: V -> string): (r: seq<V>)
    requires forall k :: k in m ==> k < bound
    ensures |r| == |m|
    ensures multiset(r) == multiset(ProjectRows(m, bound, f))
    ensures forall k :: k in m ==> f(m[k]) in r
    ensures forall i :: 0 <= i < |r| ==> r[i] in ProjectRows(m, bound, f)
    ensures forall i, j :: 0 <= i <= j < |r| ==> LexLe(key(r[i]), key(r[j]))
  {
    var rows := ProjectRows(m, bound, f);
    var sorted := SortBy(rows, key);
    assert forall k :: k in m ==> f(m[k]) in sorted by {
      forall k | k in m ensures f(m[k]) in sorted {
        assert f(m[k]) in multiset(rows);
      }
    }
    assert forall i :: 0 <= i < |sorted| ==> sorted[i] in rows by {
      forall i | 0 <= i < |sorted| ensures sorted[i] in rows {
        assert sorted[i] in multiset(rows);
      }
    }
    assert forall i, j :: 0 <= i <= j < |sorted| ==> LexLe(key(sorted[i]), key(sorted[j])) by {
      forall i, j | 0 <= i <= j < |sorted| ensures LexLe(key(sorted[i]), key(sorted[j])) {
        SortedPairwise(sorted, key, i, j);
      }
    }
    sorted
  }

  /** A projected row comes from some row of the table. */
  lemma ProjectedFrom<R, V>(m: map<nat, R>, bound: nat, f: R -> V, v: V) returns (k: nat)
    requires forall k :: k in m ==> k < bound
    requires v in ProjectRows(m, bound, f)
    ensures k in m && v == f(m[k])
  {
    var rows := ProjectRows(m, bound, f);
    var j :| 0 <= j < |rows| && rows[j] == v;
    k := IdsBelow(m, bound)[j];
  }

  /** `where p(row)`: the rows that satisfy `p`, under their ids. */
  function RowsWhere<R>(m: map<nat, R>, p: R -> bool): (sub: map<nat, R>)
    ensures forall k :: k in sub <==> k in m && p(m[k])
    ensures forall k :: k in sub ==> sub[k] == m[k]
  {
    map k | k in m && p(m[k]) :: m[k]
  }

  /** `select f(row) from m`: one projected row per id, in id order. */
  function ProjectRows<R, V(==)>(m: map<nat, R>, bound: nat, f: R -> V): (vs: seq<V>)
    requires forall k :: k in m ==> k < bound
    ensures |vs| == |m| == |IdsBelow(m, bound)|
    ensures forall i :: 0 <= i < |vs| ==> vs[i] == f(m[IdsBelow(m, bound)[i]])
    ensures forall k :: k in m ==> f(m[k]) in vs
  {
    var ids := IdsBelow(m, bound);
    DistinctIdsCoverKeys(m, bound, ids);
    var vs := seq(|ids|, i requires 0 <= i < |ids| => f(m[ids[i]]));
    assert forall k :: k in m ==> f(m[k]) in vs by {
      forall k | k in m ensures f(m[k]) in vs {
        var i :| 0 <= i < |ids| && ids[i] == k;
        assert vs[i] == f(m[k]);
      }
    }
    vs
  }

  lemma DistinctIdsCoverKeys<R>(m: map<nat, R>, bound: nat, ids: seq<nat>)
    requires forall k :: k in m ==> k < bound
    requires forall i :: 0 <= i < |ids| ==> ids[i] in m
    requires forall i, j :: 0 <= i < j < |ids| ==> ids[i] < ids[j]
    requires forall k :: k in m ==> k in ids
    ensures |ids| == |m|
  {
    var keys := set i | 0 <= i < |ids| :: ids[i];
    assert keys == m.Keys;
    DistinctCardinality(ids);
  }

  lemma {:induction false} DistinctCardinality(ids: seq<nat>)
    requires forall i, j :: 0 <= i < j < |ids| ==> ids[i] < ids[j]
    ensures |set i | 0 <= i < |ids| :: ids[i]| == |ids|
    decreases |ids|
  {
    if ids != [] {
      var last := |ids| - 1;
      var init := ids[..last];
      DistinctCardinality(init);
      var all := set i | 0 <= i < |ids| :: ids[i];
      var front := set i | 0 <= i < |init| :: init[i];
      assert all == front + {ids[last]};
      assert ids[last] !in front;
    }
  }

  /** The least id from `from` on whose row satisfies `p`, if any (a `WHERE … LIMIT 1`). */
  function FirstKey<R>(m: map<nat, R>, p: R -> bool, from: nat, bound: nat): (found: Option<nat>)
    requires forall k :: k in m ==> k < bound
    ensures found.Some? ==>
      found.value in m && from <= found.value && p(m[found.value])
      && forall k :: k in m && from <= k < found.value ==> !p(m[k])
    ensures found.None? <==> forall k :: k in m && from <= k ==> !p(m[k])
    decreases bound - from
  {
    if from >= bound then None
    else if from in m && p(m[from]) then Some(from)
    else FirstKey(m, p, from + 1, bound)
  }
}
