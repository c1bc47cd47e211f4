/** ORDER BY last_seen_at DESC, with ties broken by ascending node id, and what filtering and
    limiting do to an ordered listing. */
module Listing {
  import opened Entities

  type Rows = map<string, Relay>

  // ----- the order -----

  predicate StringLess(a: string, b: string) {
    b != "" && (a == "" || a[0] < b[0] || (a[0] == b[0] && StringLess(a[1..], b[1..])))
  }

  lemma {:induction false} StringOrder(a: string, b: string)
    ensures a == b || StringLess(a, b) || StringLess(b, a)
    ensures !(StringLess(a, b) && (a == b || StringLess(b, a)))
  {
    if a != "" && b != "" {
      StringOrder(a[1..], b[1..]);
      assert a == [a[0]] + a[1..] && b == [b[0]] + b[1..];
    }
  }

  lemma {:induction false} StringOrderTransitive(a: string, b: string, c: string)
    requires StringLess(a, b) && StringLess(b, c)
    ensures StringLess(a, c)
  {
    if a != "" && a[0] == b[0] == c[0] {
      StringOrderTransitive(a[1..], b[1..], c[1..]);
    }
  }

  /** Row j comes before row k. */
  predicate Before(m: Rows, j: string, k: string)
    requires j in m && k in m
  {
    m[j].lastSeenAt > m[k].lastSeenAt || (m[j].lastSeenAt == m[k].lastSeenAt && StringLess(j, k))
  }

  predicate IsFirst(m: Rows, k: string) {
    k in m && forall j :: j in m && j != k ==> Before(m, k, j)
  }

  lemma {:induction false} FirstExists(m: Rows)
    requires m != map[]
    ensures exists k :: IsFirst(m, k)
    decreases |m|
  {
    var x :| x in m;
    var rest := m - {x};
    if rest == map[] {
      assert forall j :: j in m && j != x ==> j in rest;
      assert IsFirst(m, x);
    } else {
      FirstExists(rest);
      var y :| IsFirst(rest, y);
      StringOrder(x, y);
      if Before(m, x, y) {
        forall j | j in m && j != x
          ensures Before(m, x, j)
        {
          assert j in rest;
          if j != y && m[x].lastSeenAt == m[y].lastSeenAt == m[j].lastSeenAt {
            StringOrderTransitive(x, y, j);
          }
        }
        assert IsFirst(m, x);
      } else {
        assert forall j :: j in m && j != x ==> j in rest;
        assert IsFirst(m, y);
      }
    }
  }

  lemma FirstUnique(m: Rows, j: string, k: string)
    requires IsFirst(m, j) && IsFirst(m, k)
    ensures j == k
  {
    StringOrder(j, k);
  }

  function First(m: Rows): (k: string)
    requires m != map[]
    ensures IsFirst(m, k)
  {
    FirstExists(m);
    assert forall j, k :: IsFirst(m, j) && IsFirst(m, k) ==> j == k by {
      forall j, k | IsFirst(m, j) && IsFirst(m, k) ensures j == k { FirstUnique(m, j, k); }
    }
    var k :| IsFirst(m, k);
    k
  }

  function Ordered(m: Rows): seq<Relay>
    decreases |m|
  {
    if m == map[] then [] else [m[First(m)]] + Ordered(m - {First(m)})
  }

  // ----- filters and limits -----

  function Where(m: Rows, keep: Relay -> bool): Rows {
    map k | k in m && keep(m[k]) :: m[k]
  }

  function Filter(s: seq<Relay>, keep: Relay -> bool): seq<Relay> {
    if s == [] then [] else (if keep(s[0]) then [s[0]] else []) + Filter(s[1..], keep)
  }

  function Take<T>(s: seq<T>, limit: nat): seq<T> {
    if |s| <= limit then s else s[..limit]
  }

  predicate Descending(s: seq<Relay>) {
    forall i, j :: 0 <= i < j < |s| ==> s[i].lastSeenAt >= s[j].lastSeenAt
  }

  /** Seen no earlier than `cutoff`. */
  function SeenSince(cutoff: int): Relay -> bool {
    (r: Relay) => r.lastSeenAt >= cutoff
  }

  // ----- what an ordered listing is -----

  /** Every row once, newest first. */
  lemma {:induction false} OrderedLists(m: Rows)
    ensures |Ordered(m)| == |m| && Descending(Ordered(m))
    ensures forall r :: r in Ordered(m) <==> exists k :: k in m && m[k] == r
    decreases |m|
  {
    if m != map[] {
      var k, rest := First(m), m - {First(m)};
      OrderedLists(rest);
      forall i | 0 <= i < |Ordered(rest)|
        ensures m[k].lastSeenAt >= Ordered(rest)[i].lastSeenAt
      {
        assert Ordered(rest)[i] in Ordered(rest);
      }
      assert |rest| == |m| - 1 by { assert rest.Keys == m.Keys - {k}; }
      assert forall j :: j in m <==> j == k || j in rest;
    }
  }

  /** The enumeration of the rows in which each one comes before the next is unique. */
  ghost predicate Enumerates(ks: seq<string>, m: Rows) {
    && (forall k :: k in ks <==> k in m)
    && (forall i, j :: 0 <= i < j < |ks| ==> ks[i] != ks[j] && ks[i] in m && ks[j] in m && Before(m, ks[i], ks[j]))
  }

  lemma TailEnumerates(ks: seq<string>, m: Rows)
    requires Enumerates(ks, m) && ks != []
    ensures Enumerates(ks[1..], m - {ks[0]})
  {
    var rest := m - {ks[0]};
    forall j ensures j in ks[1..] <==> j in rest {
      if j in rest {
        assert j in ks;
      }
      if j in ks[1..] {
        assert j in ks;
      }
    }
  }

  lemma {:induction false} OrderedIsTheEnumeration(m: Rows, ks: seq<string>)
    requires Enumerates(ks, m)
    ensures |Ordered(m)| == |ks| && forall i :: 0 <= i < |ks| ==> ks[i] in m && Ordered(m)[i] == m[ks[i]]
    decreases |ks|
  {
    if ks == [] {
      assert m == map[];
    } else {
      var k := ks[0];
      assert k in ks;
      forall j | j in m && j != k
        ensures Before(m, k, j)
      {
        assert j in ks;
      }
      FirstUnique(m, k, First(m));
      var rest := m - {k};
      TailEnumerates(ks, m);
      OrderedIsTheEnumeration(rest, ks[1..]);
    }
  }

  /** Filtering the rows and then ordering is ordering and then filtering. */
  lemma {:induction false} OrderedWhere(m: Rows, keep: Relay -> bool)
    ensures Ordered(Where(m, keep)) == Filter(Ordered(m), keep)
    decreases |m|
  {
    if m == map[] {
      assert Where(m, keep) == map[];
    } else {
      var k, rest := First(m), m - {First(m)};
      var w := Where(m, keep);
      OrderedWhere(rest, keep);
      assert |rest| < |m|;
      if keep(m[k]) {
        assert IsFirst(w, k);
        FirstUnique(w, k, First(w));
        assert w - {k} == Where(rest, keep);
      } else {
        assert w == Where(rest, keep);
      }
      assert Ordered(m)[1..] == Ordered(rest);
    }
  }

  /** A newest-first listing has its fresh entries in front. */
  lemma {:induction false} FreshPrefix(s: seq<Relay>, cutoff: int) returns (n: nat)
    requires Descending(s)
    ensures n <= |s| && forall i :: 0 <= i < |s| ==> (s[i].lastSeenAt >= cutoff <==> i < n)
  {
    n := 0;
    while n < |s| && s[n].lastSeenAt >= cutoff
      invariant n <= |s| && forall i :: 0 <= i < n ==> s[i].lastSeenAt >= cutoff
    {
      n := n + 1;
    }
  }

  lemma {:induction false} FilterIsPrefix(s: seq<Relay>, cutoff: int, n: nat)
    requires n <= |s| && forall i :: 0 <= i < |s| ==> (s[i].lastSeenAt >= cutoff <==> i < n)
    ensures Filter(s, SeenSince(cutoff)) == s[..n]
    decreases |s|
  {
    if s != [] {
      FilterIsPrefix(s[1..], cutoff, if n > 0 then n - 1 else 0);
      assert n > 0 ==> s[..n] == [s[0]] + s[1..][..n - 1];
    }
  }

  /** Keeping the fresh entries keeps a prefix, so it commutes with a limit. */
  lemma TakeThenKeepFresh(s: seq<Relay>, limit: nat, cutoff: int)
    requires Descending(s)
    ensures Filter(Take(s, limit), SeenSince(cutoff)) == Take(Filter(s, SeenSince(cutoff)), limit)
    ensures Filter(s, SeenSince(cutoff)) <= s
  {
    var n := FreshPrefix(s, cutoff);
    FilterIsPrefix(s, cutoff, n);
    FilterIsPrefix(Take(s, limit), cutoff, if n <= limit then n else limit);
  }

  /** A limited listing omits only rows no newer than those it keeps. */
  lemma TakeKeepsNewest(m: Rows, limit: nat)
    ensures Take(Ordered(m), limit) <= Ordered(m)
    ensures |Take(Ordered(m), limit)| == if |m| <= limit then |m| else limit
    ensures forall k :: k in m && m[k] !in Take(Ordered(m), limit) ==>
              forall r :: r in Take(Ordered(m), limit) ==> r.lastSeenAt >= m[k].lastSeenAt
  {
    OrderedLists(m);
    var s := Ordered(m);
    assert forall i :: 0 <= i < |Take(s, limit)| ==> s[i] in Take(s, limit);
    forall k, r | k in m && m[k] !in Take(s, limit) && r in Take(s, limit)
      ensures r.lastSeenAt >= m[k].lastSeenAt
    {
      assert m[k] in s;
      var i :| 0 <= i < |s| && s[i] == m[k];
      var j :| 0 <= j < |Take(s, limit)| && Take(s, limit)[j] == r;
    }
  }

  // ----- where a row stands in the listing -----

  /** The rows listed before row k. */
  function Ahead(m: Rows, k: string): set<string>
    requires k in m
  {
    set j | j in m && j != k && Before(m, j, k)
  }

  lemma AheadOfFirst(m: Rows)
    requires m != map[]
    ensures Ahead(m, First(m)) == {}
  {
    forall j | j in m && j != First(m) ensures !Before(m, j, First(m)) {
      StringOrder(j, First(m));
    }
  }

  lemma AheadOfOther(m: Rows, k: string)
    requires k in m && k != First(m)
    ensures |Ahead(m, k)| == |Ahead(m - {First(m)}, k)| + 1
  {
    var f := First(m);
    assert Ahead(m, k) == Ahead(m - {f}, k) + {f};
  }

  /** Row k stands in the place given by the number of rows before it. */
  lemma {:induction false} OrderedPlace(m: Rows, k: string)
    requires k in m
    ensures |Ahead(m, k)| < |Ordered(m)| && Ordered(m)[|Ahead(m, k)|] == m[k]
    decreases |m|
  {
    if k == First(m) {
      AheadOfFirst(m);
    } else {
      assert |m - {First(m)}| < |m| by { assert (m - {First(m)}).Keys == m.Keys - {First(m)}; }
      OrderedPlace(m - {First(m)}, k);
      AheadOfOther(m, k);
    }
  }

  /** And every place is some row's. */
  lemma {:induction false} PlaceHolder(m: Rows, i: nat) returns (k: string)
    requires i < |Ordered(m)|
    ensures k in m && |Ahead(m, k)| == i && Ordered(m)[i] == m[k]
    decreases |m|
  {
    if i == 0 {
      k := First(m);
      AheadOfFirst(m);
    } else {
      assert |m - {First(m)}| < |m| by { assert (m - {First(m)}).Keys == m.Keys - {First(m)}; }
      k := PlaceHolder(m - {First(m)}, i - 1);
      AheadOfOther(m, k);
    }
  }
}
