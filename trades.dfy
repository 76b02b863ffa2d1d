/** Trades, pages of trades and the sequence helpers every fetcher shares.
    A trade keeps only the two columns the pagination logic looks at:
    its per-instrument sequence number and its timestamp in milliseconds. */
module Trades {

  /** Maximum number of trades one API call returns (the `count` parameter). */
  const MaxCount: nat := 10000

  datatype Trade = Trade(tradeSeq: int, timestamp: int)

  datatype Option<T> = None | Some(value: T)

  /** The only failure the pure fetchers can meet: the JSON envelope had no
      `result` / `trades` key, which Python reports as a KeyError. */
  datatype Failure = MissingTrades

  datatype Result<T> = Ok(value: T) | Err(error: Failure)

  /** Answer of one trades request: None when the envelope carries no trades
      list (missing key or null), otherwise the page as returned. */
  type Response = Option<seq<Trade>>

  /** The endpoint queried by trade sequence: `seqApi(startSeq, endSeq, count)`. */
  type SeqApi = (int, int, int) -> Response

  /** What the sequence walk needs of the endpoint: at most `count` trades,
      each with a sequence number in the requested range, and none beyond the
      instrument's latest sequence number `latest`. */
  ghost predicate SeqWellBehaved(api: SeqApi, latest: int)
  {
    forall s: int, e: int, c: int :: api(s, e, c).Some? ==>
      |api(s, e, c).value| <= c &&
      forall t :: t in api(s, e, c).value ==> s <= t.tradeSeq <= e && t.tradeSeq <= latest
  }

  /** The two columns the fetchers sort on. */
  datatype Column = Timestamp | TradeSeq

  function Key(t: Trade, c: Column): int
  {
    match c
    case Timestamp => t.timestamp
    case TradeSeq => t.tradeSeq
  }

  predicate SortedBy(s: seq<Trade>, c: Column)
  {
    forall i, j :: 0 <= i < j < |s| ==> Key(s[i], c) <= Key(s[j], c)
  }

  /** No trade occurs twice. */
  predicate Distinct(s: seq<Trade>)
  {
    forall i, j :: 0 <= i < j < |s| ==> s[i] != s[j]
  }

  /** Every timestamp of `s` lies in the closed window [lo, hi]. */
  predicate Within(s: seq<Trade>, lo: int, hi: int)
  {
    forall t :: t in s ==> lo <= t.timestamp <= hi
  }

  /** Inserts `x` before the first element of `s` whose key is not smaller. */
  function Insert(x: Trade, s: seq<Trade>, key: Column): (r: seq<Trade>)
    ensures |r| == |s| + 1
  {
    if s == [] then [x]
    else if Key(x, key) <= Key(s[0], key) then [x] + s
    else [s[0]] + Insert(x, s[1..], key)
  }

  lemma {:induction false} InsertPermutation(x: Trade, s: seq<Trade>, key: Column)
    ensures multiset(Insert(x, s, key)) == multiset(s) + multiset{x}
  {
    if s != [] && Key(x, key) > Key(s[0], key) {
      InsertPermutation(x, s[1..], key);
      assert s == [s[0]] + s[1..];
    }
  }

  /** Inserting into a sorted sequence keeps it sorted. */
  lemma {:induction false} InsertSorted(x: Trade, s: seq<Trade>, key: Column)
    requires SortedBy(s, key)
    ensures SortedBy(Insert(x, s, key), key)
  {
    if s != [] && Key(x, key) > Key(s[0], key) {
      var rest := Insert(x, s[1..], key);
      InsertSorted(x, s[1..], key);
      InsertPermutation(x, s[1..], key);
      forall k | 0 <= k < |rest|
        ensures Key(s[0], key) <= Key(rest[k], key)
      {
        assert rest[k] in multiset(rest);
        if rest[k] != x {
          assert rest[k] in multiset(s[1..]);
          var j :| 0 <= j < |s[1..]| && s[1..][j] == rest[k];
          assert s[j + 1] == rest[k];
        }
      }
      var r := [s[0]] + rest;
      forall i, j | 0 <= i < j < |r| ensures Key(r[i], key) <= Key(r[j], key) {
        if i > 0 {
          assert r[i] == rest[i - 1] && r[j] == rest[j - 1];
        } else {
          assert r[j] == rest[j - 1];
        }
      }
    }
  }

  /** The ordering a dataframe sort (`sort_values`, `sort_index`) produces,
      computed by insertion.  What a caller may rely on is stated by
      SortByPermutation and SortBySorted; the order among equal keys is left
      open. */
  function SortBy(s: seq<Trade>, key: Column): (r: seq<Trade>)
    ensures |r| == |s|
  {
    if s == [] then [] else Insert(s[0], SortBy(s[1..], key), key)
  }

  /** Sorting keeps exactly the given trades. */
  lemma {:induction false} SortByPermutation(s: seq<Trade>, key: Column)
    ensures multiset(SortBy(s, key)) == multiset(s)
  {
    if s != [] {
      SortByPermutation(s[1..], key);
      InsertPermutation(s[0], SortBy(s[1..], key), key);
      assert s == [s[0]] + s[1..];
    }
  }

  /** Sorting orders by the key. */
  lemma {:induction false} SortBySorted(s: seq<Trade>, key: Column)
    ensures SortedBy(SortBy(s, key), key)
  {
    if s != [] {
      SortBySorted(s[1..], key);
      InsertSorted(s[0], SortBy(s[1..], key), key);
    }
  }

  /** `process_trades` of both standalone scripts: nothing is written for an
      empty list; otherwise the file holds exactly the given trades, ordered
      by trade sequence number (the order among equal numbers is left open). */
  function ProcessTrades(trades: seq<Trade>): (file: Option<seq<Trade>>)
    ensures file.None? <==> trades == []
    ensures file.Some? ==> SortedBy(file.value, TradeSeq) && multiset(file.value) == multiset(trades)
  {
    if |trades| == 0 then None
    else
      SortBySorted(trades, TradeSeq);
      SortByPermutation(trades, TradeSeq);
      Some(SortBy(trades, TradeSeq))
  }

  /** Earliest timestamp of a non-empty page (`min(trade["timestamp"] ...)`). */
  function MinTs(p: seq<Trade>): (m: int)
    requires p != []
    ensures exists t :: t in p && t.timestamp == m
    ensures forall t :: t in p ==> m <= t.timestamp
  {
    if |p| == 1 then p[0].timestamp
    else
      var m' := MinTs(p[1..]);
      assert p == [p[0]] + p[1..];
      if p[0].timestamp <= m' then p[0].timestamp else m'
  }

  /** `pd.concat` of a list of pages. */
  function Concat(pages: seq<seq<Trade>>): (r: seq<Trade>)
    ensures |r| == TotalLen(pages)
  {
    if pages == [] then [] else pages[0] + Concat(pages[1..])
  }

  function TotalLen(pages: seq<seq<Trade>>): nat
  {
    if pages == [] then 0 else |pages[0]| + TotalLen(pages[1..])
  }

  lemma {:induction false} ConcatAppend(pages: seq<seq<Trade>>, p: seq<Trade>)
    ensures Concat(pages + [p]) == Concat(pages) + p
  {
    if pages == [] {
      assert [p][1..] == [];
    } else {
      assert (pages + [p])[1..] == pages[1..] + [p];
      ConcatAppend(pages[1..], p);
    }
  }

  lemma {:induction false} ConcatMember(pages: seq<seq<Trade>>, t: Trade)
    ensures t in Concat(pages) <==> exists i :: 0 <= i < |pages| && t in pages[i]
  {
    if pages != [] {
      ConcatMember(pages[1..], t);
      if t in Concat(pages[1..]) {
        var i :| 0 <= i < |pages[1..]| && t in pages[1..][i];
        assert t in pages[i + 1];
      }
      if exists i :: 0 <= i < |pages| && t in pages[i] {
        var i :| 0 <= i < |pages| && t in pages[i];
        if i > 0 { assert t in pages[1..][i - 1]; }
      }
    }
  }

  /** Two duplicate-free sequences with no trade in common concatenate to a
      duplicate-free one. */
  lemma DisjointDistinct(a: seq<Trade>, b: seq<Trade>)
    requires Distinct(a) && Distinct(b)
    requires forall x, y :: x in a && y in b ==> x != y
    ensures Distinct(a + b)
  {
    forall i, j | 0 <= i < j < |a + b|
      ensures (a + b)[i] != (a + b)[j]
    {
      if i < |a| && j >= |a| {
        assert (a + b)[i] in a && (a + b)[j] in b;
      } else if i >= |a| {
        assert (a + b)[i] == b[i - |a|] && (a + b)[j] == b[j - |a|];
      }
    }
  }

  /** Two sorted sequences, every key of the first at most every key of the
      second, concatenate to a sorted one. */
  lemma SortedAppend(a: seq<Trade>, b: seq<Trade>, key: Column)
    requires SortedBy(a, key) && SortedBy(b, key)
    requires forall x, y :: x in a && y in b ==> Key(x, key) <= Key(y, key)
    ensures SortedBy(a + b, key)
  {
    forall i, j | 0 <= i < j < |a + b|
      ensures Key((a + b)[i], key) <= Key((a + b)[j], key)
    {
      if i < |a| && j >= |a| {
        assert (a + b)[i] in a && (a + b)[j] in b;
      } else if i >= |a| {
        assert (a + b)[i] == b[i - |a|] && (a + b)[j] == b[j - |a|];
      }
    }
  }

  /** Reordering keeps every trade inside the window it was in. */
  lemma PermutationWithin(a: seq<Trade>, b: seq<Trade>, lo: int, hi: int)
    requires multiset(a) == multiset(b) && Within(b, lo, hi)
    ensures Within(a, lo, hi)
  {
    forall t | t in a ensures lo <= t.timestamp <= hi {
      assert t in multiset(b);
    }
  }

  lemma WithinAppend(a: seq<Trade>, b: seq<Trade>, lo: int, hi: int)
    requires Within(a, lo, hi) && Within(b, lo, hi)
    ensures Within(a + b, lo, hi)
  {
  }

  /** A duplicate-free sequence holds each trade at most once. */
  lemma {:induction false} MultiplicityDistinct(s: seq<Trade>, t: Trade)
    requires Distinct(s)
    ensures multiset(s)[t] <= 1
  {
    if s != [] {
      assert s == [s[0]] + s[1..];
      assert Distinct(s[1..]) by {
        forall i, j | 0 <= i < j < |s[1..]| ensures s[1..][i] != s[1..][j] {
          assert s[1..][i] == s[i + 1] && s[1..][j] == s[j + 1];
        }
      }
      MultiplicityDistinct(s[1..], t);
      forall k | 0 <= k < |s[1..]| ensures s[1..][k] != s[0] {
        assert s[1..][k] == s[k + 1];
      }
    }
  }

  /** A reordering of a duplicate-free sequence is duplicate-free. */
  lemma PermutationDistinct(a: seq<Trade>, b: seq<Trade>)
    requires multiset(a) == multiset(b) && Distinct(b)
    ensures Distinct(a)
  {
    forall i, j | 0 <= i < j < |a| ensures a[i] != a[j] {
      if a[i] == a[j] {
        assert multiset(a)[a[i]] >= 2 by {
          assert a == a[..i] + [a[i]] + a[i + 1..j] + [a[j]] + a[j + 1..];
        }
        MultiplicityDistinct(b, a[i]);
      }
    }
  }
}
