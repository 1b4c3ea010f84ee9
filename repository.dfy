/**
 * The ORM and exception vocabulary that every service relies on.
 *
 * A repository table is modelled as a `map<nat, V>` from primary key to
 * record, together with an autoincrement bound: every key in use is below
 * the bound. `findOne` is the matching row of lowest key, `find` with an
 * `In(ids)` condition is `FindIn`, a filtered `find` is `RowsWhere`, and
 * `skip`/`take` is `Page`. Thrown framework exceptions become `Err` values.
 */
module Repository {

  datatype Option<T> = None | Some(value: T)
  {
    function GetOr(default: T): T
    {
      match this
      case Some(v) => v
      case None => default
    }
  }

  /** The framework exceptions the services throw. `ServerError` is a plain
      `Error`, which the framework reports as an internal error. */
  datatype ErrorKind = NotFound | BadRequest | Unauthorized | ServerError

  datatype Error = Error(kind: ErrorKind, message: string)

  datatype Result<T> = Ok(value: T) | Err(error: Error)

  predicate Distinct<T(==)>(s: seq<T>)
  {
    forall i, j :: 0 <= i < j < |s| ==> s[i] != s[j]
  }

  predicate Increasing(s: seq<nat>)
  {
    forall i, j :: 0 <= i < j < |s| ==> s[i] < s[j]
  }

  /** A sequence without repeats holds each value at most once. */
  lemma {:induction false} DistinctCountsOnce<T>(s: seq<T>, x: T)
    requires Distinct(s)
    ensures multiset(s)[x] <= 1
  {
    if s != [] {
      assert s == [s[0]] + s[1..];
      assert Distinct(s[1..]) by {
        forall i, j | 0 <= i < j < |s[1..]| ensures s[1..][i] != s[1..][j] {
          assert s[1..][i] == s[i + 1] && s[1..][j] == s[j + 1];
        }
      }
      DistinctCountsOnce(s[1..], x);
      if s[0] == x {
        assert x !in s[1..] by {
          forall i | 0 <= i < |s[1..]| ensures s[1..][i] != x {
            assert s[1..][i] == s[i + 1];
          }
        }
      }
    }
  }

  /** A value held at two positions is counted at least twice. */
  lemma RepeatCountsTwice<T>(s: seq<T>, i: int, j: int)
    requires 0 <= i < j < |s| && s[i] == s[j]
    ensures multiset(s)[s[i]] >= 2
  {
    assert s == s[..i] + [s[i]] + s[i + 1..j] + [s[j]] + s[j + 1..];
  }

  /** JavaScript truthiness of an optional string field: present and non-empty. */
  predicate TruthyText(s: Option<string>)
  {
    s.Some? && s.value != ""
  }

  /** JavaScript truthiness of an optional number field: present and non-zero. */
  predicate TruthyNumber(n: Option<int>)
  {
    n.Some? && n.value != 0
  }

  /** JavaScript truthiness of an optional key: present and non-zero. */
  predicate TruthyKey(n: Option<nat>)
  {
    n.Some? && n.value != 0
  }

  /** The number a text of decimal digits spells. */
  function DigitsValue(s: string): int
  {
    if s == [] then 0 else DigitsValue(s[..|s| - 1]) * 10 + (s[|s| - 1] as int - '0' as int)
  }

  /** Decimal rendering of a key, as a template string prints it: digits
      without a leading zero that spell the key. */
  function NatText(n: nat): (r: string)
    ensures |r| >= 1
    ensures forall i :: 0 <= i < |r| ==> '0' <= r[i] <= '9'
    ensures DigitsValue(r) == n
    ensures r[0] == '0' ==> n == 0
  {
    var d := [(('0' as int) + n % 10) as char];
    if n < 10 then
      assert d[..0] == [];
      d
    else
      var p := NatText(n / 10);
      assert (p + d)[..|p|] == p;
      p + d
  }

  /** `find({ where: { id: In(ids) } })` against the rows whose keys are in
      `present`: every matching key once, in the order of the request. */
  function FindIn(present: set<nat>, ids: seq<nat>): (r: seq<nat>)
    ensures Distinct(r)
    ensures forall x :: x in r <==> x in ids && x in present
    ensures |r| <= |ids|
  {
    if ids == [] then []
    else
      var prev := FindIn(present, ids[..|ids| - 1]);
      var x := ids[|ids| - 1];
      assert ids == ids[..|ids| - 1] + [x];
      if x in present && x !in prev then prev + [x] else prev
  }

  /** The length check the services make after an `In(ids)` lookup succeeds
      exactly when every requested key exists and no key is repeated, and
      then the lookup returns the request itself. */
  lemma {:induction false} FindInComplete(present: set<nat>, ids: seq<nat>)
    ensures |FindIn(present, ids)| == |ids|
        <==> (forall i :: 0 <= i < |ids| ==> ids[i] in present) && Distinct(ids)
    ensures |FindIn(present, ids)| == |ids| ==> FindIn(present, ids) == ids
  {
    if ids != [] {
      var p := ids[..|ids| - 1];
      var x := ids[|ids| - 1];
      assert ids == p + [x];
      FindInComplete(present, p);
      var prev := FindIn(present, p);
      if (forall i :: 0 <= i < |ids| ==> ids[i] in present) && Distinct(ids) {
        assert forall i :: 0 <= i < |p| ==> p[i] in present && p[i] == ids[i];
        assert Distinct(p) by {
          forall i, j | 0 <= i < j < |p| ensures p[i] != p[j] {
            assert p[i] == ids[i] && p[j] == ids[j];
          }
        }
        assert x !in p by {
          forall i | 0 <= i < |p| ensures p[i] != x {
            assert p[i] == ids[i];
          }
        }
      }
      if |FindIn(present, ids)| == |ids| {
        assert |prev| == |p| && x in present && x !in prev;
        assert prev == p;
        forall i, j | 0 <= i < j < |ids| ensures ids[i] != ids[j] {
          if j < |p| {
            assert ids[i] == p[i] && ids[j] == p[j];
          } else {
            assert ids[i] == p[i];
          }
        }
        forall i | 0 <= i < |ids| ensures ids[i] in present {
          if i < |p| {
            assert ids[i] == p[i];
          }
        }
      }
    }
  }

  /** `findOne` over the rows with key below `bound`: the key of the first
      row, in key order, that satisfies `p`. */
  function FirstMatch<V>(m: map<nat, V>, p: V -> bool, bound: nat): (r: Option<nat>)
    ensures r.Some? ==> r.value < bound && r.value in m && p(m[r.value])
    ensures r.Some? ==> forall k :: 0 <= k < r.value && k in m ==> !p(m[k])
    ensures r.None? <==> forall k :: 0 <= k < bound && k in m ==> !p(m[k])
  {
    if bound == 0 then None
    else
      match FirstMatch(m, p, bound - 1)
      case Some(k) => Some(k)
      case None => if bound - 1 in m && p(m[bound - 1]) then Some(bound - 1) else None
  }

  /** A filtered `find` over the rows with key below `bound`: the keys of the
      rows satisfying `p`, in ascending key order. */
  function RowsWhere<V>(m: map<nat, V>, p: V -> bool, bound: nat): (r: seq<nat>)
    ensures Increasing(r)
    ensures forall k :: k in r <==> k < bound && k in m && p(m[k])
  {
    if bound == 0 then []
    else
      var prev := RowsWhere(m, p, bound - 1);
      assert forall j :: 0 <= j < |prev| ==> prev[j] in prev;
      if bound - 1 in m && p(m[bound - 1]) then prev + [bound - 1] else prev
  }

  /** The offset every paginated query computes from a page number. */
  function SkipCount(pageNo: int, pageSize: int): int
  {
    (pageNo - 1) * pageSize
  }

  /** `skip`/`take` applied to an ordered result. A skip of 0 and a take of 0
      are falsy and so impose nothing; negative values are treated the same. */
  function Page<T>(rows: seq<T>, skip: int, take: int): (r: seq<T>)
    ensures skip <= 0 && take <= 0 ==> r == rows
    ensures take > 0 ==> |r| <= take
    ensures skip > 0 && skip >= |rows| ==> r == []
    ensures forall i :: 0 <= i < |r| ==>
              (if skip > 0 then skip else 0) + i < |rows| && r[i] == rows[(if skip > 0 then skip else 0) + i]
  {
    var from := if skip <= 0 then 0 else if skip > |rows| then |rows| else skip;
    var to := if take <= 0 || from + take > |rows| then |rows| else from + take;
    rows[from..to]
  }

  /** The row at offset `m` of a page starting at `skip` is row `skip + m`. */
  lemma PageAt<T>(rows: seq<T>, skip: int, take: int, m: int)
    requires 0 <= skip && 0 <= m < take && skip + m < |rows|
    ensures m < |Page(rows, skip, take)| && Page(rows, skip, take)[m] == rows[skip + m]
  {
  }

  /** The page of position `i` starts `i % pageSize` rows before it. */
  lemma PageOfPosition(pageSize: int, i: int)
    requires pageSize >= 1 && 0 <= i
    ensures var skip := SkipCount(i / pageSize + 1, pageSize);
            0 <= skip && 0 <= i % pageSize < pageSize && skip + i % pageSize == i
  {
    var q := i / pageSize;
    assert (q + 1) - 1 == q;
    assert i == q * pageSize + i % pageSize;
  }

  /** Pages of a positive size tile the result: the row at position `i`
      appears on page `i / pageSize + 1`, at offset `i % pageSize`. */
  lemma PageTiles<T>(rows: seq<T>, pageSize: int, i: int)
    requires pageSize >= 1 && 0 <= i < |rows|
    ensures var page := Page(rows, SkipCount(i / pageSize + 1, pageSize), pageSize);
            i % pageSize < |page| && page[i % pageSize] == rows[i]
  {
    PageOfPosition(pageSize, i);
    PageAt(rows, SkipCount(i / pageSize + 1, pageSize), pageSize, i % pageSize);
  }
}
