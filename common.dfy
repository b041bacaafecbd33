/**
 * The search and string helpers of `deeputils/common.py`.
 *
 * A record `d[i]` is a dictionary, so `d[i][k]` is a map lookup; when the record
 * has no key `k` Python raises `KeyError`, and the search stops there.
 */
module Common {
  import opened Results

  /** Python's `KeyError(k)`, raised by `d[i][k]` on a record without key `k`. */
  datatype SearchError<K> = KeyError(key: K)

  /** `e[k] == v` holds (and does not raise). */
  predicate Matches<K, V(==)>(e: map<K, V>, k: K, v: V) {
    k in e && e[k] == v
  }

  /** The search passes the first `n` records: each has key `k`, and not with value `v`. */
  ghost predicate Passed<K, V>(d: seq<map<K, V>>, k: K, v: V, n: nat)
    requires n <= |d|
  {
    forall j :: 0 <= j < n ==> k in d[j] && d[j][k] != v
  }

  /** `dict_search(d, k, v)`: the index of the first record whose field `k` equals `v`. */
  method DictSearch<K, V(==)>(d: seq<map<K, V>>, k: K, v: V) returns (r: Result<Option<nat>, SearchError<K>>)
    ensures r.Ok? && r.value.Some? ==>
      r.value.value < |d| && Matches(d[r.value.value], k, v) && Passed(d, k, v, r.value.value)
    ensures r == Ok(None) <==> Passed(d, k, v, |d|)
    ensures r.Err? ==>
      r.error == KeyError(k) && exists j :: 0 <= j < |d| && k !in d[j] && Passed(d, k, v, j)
  {
    for i := 0 to |d|
      invariant Passed(d, k, v, i)
    {
      if k !in d[i] {
        return Err(KeyError(k));
      }
      if d[i][k] == v {
        return Ok(Some(i));
      }
    }
    return Ok(None);
  }

  /** `tuple_search(t, k, v)`: the first element of `t` whose field `k` equals `v`. */
  method TupleSearch<K, V(==)>(t: seq<map<K, V>>, k: K, v: V) returns (r: Result<Option<map<K, V>>, SearchError<K>>)
    ensures r.Ok? && r.value.Some? ==>
      r.value.value in t && Matches(r.value.value, k, v) &&
      exists i :: 0 <= i < |t| && t[i] == r.value.value && Passed(t, k, v, i)
    ensures r == Ok(None) <==> Passed(t, k, v, |t|)
    ensures r.Err? ==>
      r.error == KeyError(k) && exists j :: 0 <= j < |t| && k !in t[j] && Passed(t, k, v, j)
  {
    for i := 0 to |t|
      invariant Passed(t, k, v, i)
    {
      var e := t[i];
      if k !in e {
        return Err(KeyError(k));
      }
      if e[k] == v {
        return Ok(Some(e));
      }
    }
    return Ok(None);
  }

  /**
   * The position Python's slices `s[:i]` and `s[i:]` cut at, for `|s| == n`:
   * a negative `i` counts from the end, and the result is clamped to `0..n`.
   */
  function SliceBound(n: nat, i: int): (p: nat)
    ensures p <= n
    ensures 0 <= i <= n ==> p == i
    ensures i < 0 <= i + n ==> p == i + n
    ensures i + n < 0 ==> p == 0
    ensures n < i ==> p == n
  {
    if i < 0 then (if i + n < 0 then 0 else i + n)
    else if i > n then n
    else i
  }

  /** `string_insert(str1, str2, i)`: `str2` spliced into `str1` at position `i`. */
  function StringInsert(str1: string, str2: string, i: int): (r: string)
    ensures |r| == |str1| + |str2|
    ensures var p := SliceBound(|str1|, i);
      r[..p] == str1[..p] && r[p..p + |str2|] == str2 && r[p + |str2|..] == str1[p..]
  {
    var p := SliceBound(|str1|, i);
    str1[..p] + str2 + str1[p..]
  }

  /** `s` with the `n` characters from position `p` deleted. */
  function Delete(s: string, p: nat, n: nat): (r: string)
    requires p + n <= |s|
    ensures |r| == |s| - n
  {
    s[..p] + s[p + n..]
  }

  /** Deleting the inserted text at the insertion point gives back the original string. */
  lemma InsertThenDelete(str1: string, str2: string, i: int)
    ensures var p := SliceBound(|str1|, i);
      Delete(StringInsert(str1, str2, i), p, |str2|) == str1
  {
    var p := SliceBound(|str1|, i);
    var r := StringInsert(str1, str2, i);
    assert r[..p] == str1[..p];
    assert r[p + |str2|..] == str1[p..];
    assert str1 == str1[..p] + str1[p..];
  }

  /** Inserting the empty string changes nothing, wherever it is inserted. */
  lemma InsertEmpty(str1: string, i: int)
    ensures StringInsert(str1, "", i) == str1
  {
    var p := SliceBound(|str1|, i);
    assert str1 == str1[..p] + str1[p..];
  }

  /** Position 0 prepends, position `len(str1)` (or anything past it) appends. */
  lemma InsertAtEnds(str1: string, str2: string, i: int)
    ensures i == 0 ==> StringInsert(str1, str2, i) == str2 + str1
    ensures i >= |str1| ==> StringInsert(str1, str2, i) == str1 + str2
  {
    assert str1[..0] == [] && str1[0..] == str1;
    assert str1[..|str1|] == str1 && str1[|str1|..] == [];
  }
}
