/** `sorted(..., key=lambda x: x['timestamp'])` (wcl_to_mdt.py:194-198): Python's
    sort is stable, so it is modelled by an insertion sort that places each event
    after every earlier event with a smaller or equal timestamp. */
module StableSort {
  import opened Combat
  import opened SeqFacts

  predicate SortedByTime(s: seq<Event>) {
    forall i, j :: 0 <= i < j < |s| ==> s[i].timestamp <= s[j].timestamp
  }

  /** An event no later than the first of a sorted sequence can go in front of it. */
  lemma SortedCons(x: Event, r: seq<Event>)
    requires SortedByTime(r) && (r == [] || x.timestamp <= r[0].timestamp)
    ensures SortedByTime([x] + r)
  {
    var xr := [x] + r;
    forall i, j | 0 <= i < j < |xr| ensures xr[i].timestamp <= xr[j].timestamp {
      if i == 0 {
        assert xr[j] == r[j - 1];
        assert r[0].timestamp <= r[j - 1].timestamp;
      } else {
        assert xr[i] == r[i - 1] && xr[j] == r[j - 1];
      }
    }
  }

  lemma SortedTail(s: seq<Event>)
    requires SortedByTime(s) && s != []
    ensures SortedByTime(s[1..])
  {
    forall i, j | 0 <= i < j < |s| - 1 ensures s[1..][i].timestamp <= s[1..][j].timestamp {
      assert s[1..][i] == s[i + 1] && s[1..][j] == s[j + 1];
    }
  }

  /** Puts `e` in front of the first event of `s` whose timestamp is not smaller. */
  function Insert(e: Event, s: seq<Event>): (r: seq<Event>)
    requires SortedByTime(s)
    ensures SortedByTime(r)
    ensures multiset(r) == multiset(s) + multiset{e}
    ensures r[0] == e || (s != [] && r[0] == s[0])
  {
    if s == [] || e.timestamp <= s[0].timestamp then
      SortedCons(e, s);
      [e] + s
    else
      SortedTail(s);
      var rest := Insert(e, s[1..]);
      HeadAndTail(s);
      SortedCons(s[0], rest);
      [s[0]] + rest
  }

  /** The events sorted by timestamp; events with equal timestamps keep their order. */
  function SortByTimestamp(s: seq<Event>): (r: seq<Event>)
    ensures SortedByTime(r)
    ensures multiset(r) == multiset(s)
  {
    if s == [] then []
    else
      assert s == [s[0]] + s[1..];
      Insert(s[0], SortByTimestamp(s[1..]))
  }

  /** The events of `s` stamped `t`, in the order `s` has them. */
  function WithTimestamp(s: seq<Event>, t: int): seq<Event> {
    if s == [] then []
    else (if s[0].timestamp == t then [s[0]] else []) + WithTimestamp(s[1..], t)
  }

  lemma WithTimestampCons(x: Event, r: seq<Event>, t: int)
    ensures WithTimestamp([x] + r, t) == (if x.timestamp == t then [x] else []) + WithTimestamp(r, t)
  {
    ConsParts(x, r);
  }

  lemma {:induction false} InsertStable(e: Event, s: seq<Event>, t: int)
    requires SortedByTime(s)
    ensures WithTimestamp(Insert(e, s), t) == (if e.timestamp == t then [e] else []) + WithTimestamp(s, t)
    decreases |s|
  {
    if s == [] || e.timestamp <= s[0].timestamp {
      WithTimestampCons(e, s, t);
    } else {
      SortedTail(s);
      InsertStable(e, s[1..], t);
      InsertStableLater(e, s, t);
    }
  }

  lemma InsertStableLater(e: Event, s: seq<Event>, t: int)
    requires SortedByTime(s) && s != [] && e.timestamp > s[0].timestamp
    requires SortedByTime(s[1..])
    requires WithTimestamp(Insert(e, s[1..]), t) == (if e.timestamp == t then [e] else []) + WithTimestamp(s[1..], t)
    ensures WithTimestamp(Insert(e, s), t) == (if e.timestamp == t then [e] else []) + WithTimestamp(s, t)
  {
    var rest := Insert(e, s[1..]);
    var x := WithTimestamp(s[1..], t);
    assert Insert(e, s) == [s[0]] + rest;
    WithTimestampCons(s[0], rest, t);
    WithTimestampCons(s[0], s[1..], t);
    HeadAndTail(s);
    // e comes later than s[0], so at most one of the two carries the stamp t
    if e.timestamp == t {
      assert WithTimestamp(Insert(e, s), t) == [] + ([e] + x);
      assert WithTimestamp(s, t) == [] + x;
      EmptyAppend([e] + x);
      EmptyAppend(x);
    } else {
      assert WithTimestamp(Insert(e, s), t) == (if s[0].timestamp == t then [s[0]] else []) + ([] + x);
      EmptyAppend(x);
      EmptyAppend(WithTimestamp(s, t));
    }
  }

  lemma {:induction false} SortStable(s: seq<Event>, t: int)
    ensures WithTimestamp(SortByTimestamp(s), t) == WithTimestamp(s, t)
  {
    if s != [] {
      SortStable(s[1..], t);
      InsertStable(s[0], SortByTimestamp(s[1..]), t);
    }
  }

  lemma {:induction false} InWithTimestamp(s: seq<Event>, t: int, x: Event)
    ensures x in WithTimestamp(s, t) <==> x in s && x.timestamp == t
  {
    if s != [] {
      InWithTimestamp(s[1..], t, x);
      assert s == [s[0]] + s[1..];
    }
  }

  lemma HeadHasStamp(s: seq<Event>)
    requires s != []
    ensures WithTimestamp(s, s[0].timestamp) != []
  {
  }

  /** Sortedness and stability pin the result down: a sorted sequence that keeps
      the relative order of every group of equal timestamps as `s` has it is
      `SortByTimestamp(s)`, so the model sorts exactly as Python's stable sort does. */
  lemma {:induction false} StableSortUnique(s: seq<Event>, r: seq<Event>)
    requires SortedByTime(r)
    requires forall t :: WithTimestamp(r, t) == WithTimestamp(s, t)
    ensures r == SortByTimestamp(s)
  {
    var q := SortByTimestamp(s);
    forall t ensures WithTimestamp(q, t) == WithTimestamp(r, t) {
      SortStable(s, t);
    }
    SortedStableEqual(r, q);
  }

  lemma {:induction false} SortedStableEqual(a: seq<Event>, b: seq<Event>)
    requires SortedByTime(a) && SortedByTime(b)
    requires forall t :: WithTimestamp(a, t) == WithTimestamp(b, t)
    ensures a == b
    decreases |a|
  {
    if a == [] || b == [] {
      if a != [] {
        HeadHasStamp(a);
      } else if b != [] {
        HeadHasStamp(b);
      }
    } else {
      SameFirst(a, b);
      SameRest(a, b);
      SortedTail(a);
      SortedTail(b);
      SortedStableEqual(a[1..], b[1..]);
      HeadAndTail(a);
      HeadAndTail(b);
    }
  }

  /** Two sorted sequences with the same events per timestamp start alike. */
  lemma SameFirst(a: seq<Event>, b: seq<Event>)
    requires SortedByTime(a) && SortedByTime(b) && a != [] && b != []
    requires forall t :: WithTimestamp(a, t) == WithTimestamp(b, t)
    ensures a[0] == b[0]
  {
    var m := a[0].timestamp;
    // a[0] occurs in b, so b's smallest timestamp is at most m; and the other way round
    InWithTimestamp(a, m, a[0]);
    InWithTimestamp(b, m, a[0]);
    InWithTimestamp(b, b[0].timestamp, b[0]);
    InWithTimestamp(a, b[0].timestamp, b[0]);
    assert b[0].timestamp == m;
    assert WithTimestamp(a, m) == [a[0]] + WithTimestamp(a[1..], m);
    assert WithTimestamp(b, m) == [b[0]] + WithTimestamp(b[1..], m);
    assert a[0] == WithTimestamp(a, m)[0] == WithTimestamp(b, m)[0] == b[0];
  }

  /** ... and what follows their first events has the same events per timestamp. */
  lemma SameRest(a: seq<Event>, b: seq<Event>)
    requires a != [] && b != [] && a[0] == b[0]
    requires forall t :: WithTimestamp(a, t) == WithTimestamp(b, t)
    ensures forall t :: WithTimestamp(a[1..], t) == WithTimestamp(b[1..], t)
  {
    forall t ensures WithTimestamp(a[1..], t) == WithTimestamp(b[1..], t) {
      var head := if a[0].timestamp == t then [a[0]] else [];
      var wa, wb := WithTimestamp(a[1..], t), WithTimestamp(b[1..], t);
      assert WithTimestamp(a, t) == head + wa;
      assert WithTimestamp(b, t) == head + wb;
      PrefixCancel(head, wa, wb);
    }
  }

  lemma PrefixCancel(head: seq<Event>, x: seq<Event>, y: seq<Event>)
    requires head + x == head + y
    ensures x == y
  {
    assert x == (head + x)[|head|..];
    assert y == (head + y)[|head|..];
  }

  /** No two events of `s` share a timestamp. */
  predicate DistinctTimestamps(s: seq<Event>) {
    forall i, j :: 0 <= i < j < |s| ==> s[i].timestamp != s[j].timestamp
  }

  /** `WithTimestamp(s, t)` holds each event stamped `t` as often as `s` does, and
      nothing else. */
  lemma {:induction false} WithTimestampCount(s: seq<Event>, t: int)
    ensures forall x :: multiset(WithTimestamp(s, t))[x] == if x.timestamp == t then multiset(s)[x] else 0
  {
    if s != [] {
      WithTimestampCount(s[1..], t);
      HeadAndTail(s);
      assert multiset(s) == multiset{s[0]} + multiset(s[1..]);
    }
  }

  /** With distinct timestamps, at most one event carries a given stamp. */
  lemma {:induction false} DistinctAtMostOne(s: seq<Event>, t: int)
    requires DistinctTimestamps(s)
    ensures |WithTimestamp(s, t)| <= 1
  {
    if s != [] {
      assert DistinctTimestamps(s[1..]) by {
        forall i, j | 0 <= i < j < |s| - 1 ensures s[1..][i].timestamp != s[1..][j].timestamp {
          assert s[1..][i] == s[i + 1] && s[1..][j] == s[j + 1];
        }
      }
      DistinctAtMostOne(s[1..], t);
      if s[0].timestamp == t {
        var w := WithTimestamp(s[1..], t);
        if w != [] {
          InWithTimestamp(s[1..], t, w[0]);
          assert false;
        }
      }
    }
  }

  /** A sequence of at most one event is fixed by its multiset. */
  lemma ShortByMultiset(a: seq<Event>, b: seq<Event>)
    requires |a| <= 1 && multiset(a) == multiset(b)
    ensures a == b
  {
    assert |b| == |multiset(b)| == |multiset(a)| == |a|;
    if |a| == 1 {
      assert a[0] in multiset(b);
      assert b == [b[0]];
    }
  }
}
