/** The global week index: every distinct acquisition date, across all sources, gets the
    label "Week k", where k is the date's 1-based position among the distinct dates in
    ascending order. */
module WeekIndex {
  import opened Frame

  // ---------------------------------------------------------------------------
  // Decimal rendering of a rank: plain digits, no padding

  function DigitChar(d: nat): char
    requires d < 10
  {
    ('0' as int + d) as char
  }

  function DigitValue(c: char): nat {
    if '0' <= c <= '9' then c as int - '0' as int else 0
  }

  /** The decimal digits of `n`: no sign, and no leading zero unless `n` is zero. */
  function Decimal(n: nat): (s: string)
    ensures 0 < |s|
    ensures forall k :: 0 <= k < |s| ==> '0' <= s[k] <= '9'
    ensures n > 0 ==> s[0] != '0'
    decreases n
  {
    if n < 10 then [DigitChar(n)] else Decimal(n / 10) + [DigitChar(n % 10)]
  }

  predicate AllDigits(s: string) {
    forall k :: 0 <= k < |s| ==> '0' <= s[k] <= '9'
  }

  /** Reads a run of decimal digits back into a number. */
  function ParseDecimal(s: string): nat
    decreases |s|
  {
    if s == [] then 0 else ParseDecimal(s[..|s| - 1]) * 10 + DigitValue(s[|s| - 1])
  }

  lemma {:induction false} ParseDecimalInverse(n: nat)
    ensures ParseDecimal(Decimal(n)) == n
    decreases n
  {
    if n >= 10 {
      var s := Decimal(n);
      ParseDecimalInverse(n / 10);
      assert s[..|s| - 1] == Decimal(n / 10);
    }
  }

  /** The label the pipeline writes into the Week Number column: "Week " followed by
      plain decimal digits, with no padding, that read back as the rank. */
  function WeekLabel(rank: nat): (s: string)
    ensures |s| > 5 && s[..5] == "Week " && ParseDecimal(s[5..]) == rank
    ensures AllDigits(s[5..]) && (s[5] != '0' || |s| == 6)
  {
    ParseDecimalInverse(rank);
    assert ("Week " + Decimal(rank))[5..] == Decimal(rank);
    "Week " + Decimal(rank)
  }

  /** Different ranks never share a label, so the labels name the ranks one to one. */
  lemma WeekLabelInjective(a: nat, b: nat)
    ensures WeekLabel(a) == WeekLabel(b) <==> a == b
  {
    if WeekLabel(a) == WeekLabel(b) {
      assert WeekLabel(a)[5..] == Decimal(a);
      assert WeekLabel(b)[5..] == Decimal(b);
      ParseDecimalInverse(a);
      ParseDecimalInverse(b);
    }
  }

  // ---------------------------------------------------------------------------
  // The distinct dates in ascending order

  ghost predicate StrictlyIncreasing(s: seq<int>) {
    forall i, j :: 0 <= i < j < |s| ==> s[i] < s[j]
  }

  lemma ElemsConcat(a: seq<int>, b: seq<int>)
    ensures Elems(a + b) == Elems(a) + Elems(b)
  {
    forall e ensures e in Elems(a + b) <==> e in Elems(a) || e in Elems(b) {
      assert e in a + b <==> e in a || e in b;
    }
  }

  /** A date below every entry of an ascending list can go in front of it. */
  lemma ConsIncreasing(x: int, s: seq<int>)
    requires StrictlyIncreasing(s) && forall e :: e in Elems(s) ==> x < e
    ensures StrictlyIncreasing([x] + s)
    ensures Elems([x] + s) == Elems(s) + {x}
  {
    var r := [x] + s;
    forall i, j | 0 <= i < j < |r| ensures r[i] < r[j] {
      assert r[j] == s[j - 1] && s[j - 1] in Elems(s);
      if i > 0 {
        assert r[i] == s[i - 1];
      }
    }
    ElemsConcat([x], s);
  }

  /** Every entry of an ascending list is at least its head. */
  lemma AboveHead(s: seq<int>)
    requires StrictlyIncreasing(s) && s != []
    ensures forall e :: e in Elems(s) ==> s[0] <= e
  {
    forall e | e in Elems(s) ensures s[0] <= e {
      var j :| 0 <= j < |s| && s[j] == e;
    }
  }

  /** The step of InsertDistinct that keeps the head and inserts into the tail. */
  lemma InsertBehindHead(x: int, s: seq<int>, rest: seq<int>)
    requires StrictlyIncreasing(s) && s != [] && s[0] < x
    requires StrictlyIncreasing(rest) && Elems(rest) == Elems(s[1..]) + {x}
    ensures StrictlyIncreasing([s[0]] + rest)
    ensures Elems([s[0]] + rest) == Elems(s) + {x}
  {
    assert s == [s[0]] + s[1..];
    ElemsConcat([s[0]], s[1..]);
    AboveHead(s);
    ConsIncreasing(s[0], rest);
  }

  function InsertDistinct(x: int, s: seq<int>): (r: seq<int>)
    requires StrictlyIncreasing(s)
    ensures StrictlyIncreasing(r)
    ensures Elems(r) == Elems(s) + {x}
  {
    if s == [] then [x]
    else if x < s[0] then
      AboveHead(s);
      ConsIncreasing(x, s);
      [x] + s
    else if x == s[0] then s
    else
      var rest := InsertDistinct(x, s[1..]);
      InsertBehindHead(x, s, rest);
      [s[0]] + rest
  }

  /** The distinct dates in ascending order. */
  function SortedUnique(dates: seq<int>): (u: seq<int>)
    ensures StrictlyIncreasing(u)
    ensures Elems(u) == Elems(dates)
  {
    if dates == [] then []
    else
      var n := |dates| - 1;
      assert Elems(dates) == Elems(dates[..n]) + {dates[n]} by {
        assert dates == dates[..n] + [dates[n]];
      }
      InsertDistinct(dates[n], SortedUnique(dates[..n]))
  }

  lemma {:induction false} DistinctCount(u: seq<int>)
    requires StrictlyIncreasing(u)
    ensures |Elems(u)| == |u|
    decreases |u|
  {
    if u != [] {
      var n := |u| - 1;
      DistinctCount(u[..n]);
      assert Elems(u) == Elems(u[..n]) + {u[n]} by {
        assert u == u[..n] + [u[n]];
      }
      assert u[n] !in Elems(u[..n]);
    }
  }

  /** There is only one ascending list without repeats of a given set of dates, so
      SortedUnique depends on which dates occur and on nothing else. */
  lemma {:induction false} AscendingListUnique(a: seq<int>, b: seq<int>)
    requires StrictlyIncreasing(a) && StrictlyIncreasing(b)
    requires Elems(a) == Elems(b)
    ensures a == b
    decreases |a|
  {
    DistinctCount(a);
    DistinctCount(b);
    if a != [] {
      assert a[0] in Elems(b) && b[0] in Elems(a);
      assert a[0] == b[0];
      assert Elems(a[1..]) == Elems(a) - {a[0]} by {
        assert a == [a[0]] + a[1..];
      }
      assert Elems(b[1..]) == Elems(b) - {b[0]} by {
        assert b == [b[0]] + b[1..];
      }
      AscendingListUnique(a[1..], b[1..]);
      assert a == [a[0]] + a[1..] && b == [b[0]] + b[1..];
    }
  }

  // ---------------------------------------------------------------------------
  // Ranks

  /** The reference definition of a date's rank among the distinct dates `ds`: one more
      than the number of them strictly before it. */
  ghost function Rank(ds: set<int>, d: int): nat {
    |set e | e in ds && e < d| + 1
  }

  /** In an ascending list, the entries before position i are exactly the entries
      smaller than the one at i. */
  lemma EntriesBelow(u: seq<int>, i: nat)
    requires StrictlyIncreasing(u) && i < |u|
    ensures (set e | e in Elems(u) && e < u[i]) == Elems(u[..i])
  {
    forall e | e in Elems(u) && e < u[i] ensures e in Elems(u[..i]) {
      var j :| 0 <= j < |u| && u[j] == e;
      assert u[..i][j] == e;
    }
    forall e | e in Elems(u[..i]) ensures e in Elems(u) && e < u[i] {
      var j :| 0 <= j < i && u[..i][j] == e;
      assert u[j] == e;
    }
  }

  /** The date at position i of the ascending distinct list has rank i + 1. */
  lemma RankOfPosition(dates: seq<int>, i: nat)
    requires i < |SortedUnique(dates)|
    ensures Rank(Elems(dates), SortedUnique(dates)[i]) == i + 1
  {
    var u := SortedUnique(dates);
    EntriesBelow(u, i);
    var prefix := u[..i];
    assert StrictlyIncreasing(prefix) by {
      forall a, b | 0 <= a < b < |prefix| ensures prefix[a] < prefix[b] {
        assert prefix[a] == u[a] && prefix[b] == u[b];
      }
    }
    DistinctCount(prefix);
    assert |set e | e in Elems(u) && e < u[i]| == i;
  }

  /** The week map: the distinct dates, ascending, numbered from "Week 1". */
  function DateToWeekMap(dates: seq<int>): (m: map<int, string>)
    ensures m.Keys == Elems(dates)
  {
    Enumerate(SortedUnique(dates))
  }

  /** Numbers the entries of `u` in order, from "Week 1". */
  function Enumerate(u: seq<int>): (m: map<int, string>)
    requires StrictlyIncreasing(u)
    ensures m.Keys == Elems(u)
  {
    map i | 0 <= i < |u| :: u[i] := WeekLabel(i + 1)
  }

  /** Enumerating an ascending list sends its entry at position i to "Week i+1". */
  lemma EnumerateAt(u: seq<int>, i: nat)
    requires StrictlyIncreasing(u) && i < |u|
    ensures u[i] in Enumerate(u) && Enumerate(u)[u[i]] == WeekLabel(i + 1)
  {
    assert forall j :: 0 <= j < |u| && u[j] == u[i] ==> j == i;
  }

  /** The week map sends the entry at position i of the ascending distinct list to
      "Week i+1". */
  lemma WeekMapAt(dates: seq<int>, i: nat)
    requires i < |SortedUnique(dates)|
    ensures SortedUnique(dates)[i] in DateToWeekMap(dates)
    ensures DateToWeekMap(dates)[SortedUnique(dates)[i]] == WeekLabel(i + 1)
  {
    EnumerateAt(SortedUnique(dates), i);
  }

  /** The week map's keys are exactly the distinct dates, and each date's label carries
      its rank. */
  lemma DateToWeekMapRanks(dates: seq<int>)
    ensures DateToWeekMap(dates).Keys == Elems(dates)
    ensures forall d :: d in DateToWeekMap(dates) ==> DateToWeekMap(dates)[d] == WeekLabel(Rank(Elems(dates), d))
  {
    forall d | d in DateToWeekMap(dates) ensures DateToWeekMap(dates)[d] == WeekLabel(Rank(Elems(dates), d)) {
      WeekMapRankAt(dates, d);
    }
  }

  lemma WeekMapRankAt(dates: seq<int>, d: int)
    requires d in DateToWeekMap(dates)
    ensures DateToWeekMap(dates)[d] == WeekLabel(Rank(Elems(dates), d))
  {
    var u := SortedUnique(dates);
    assert d in Elems(u);
    var i :| 0 <= i < |u| && u[i] == d;
    WeekMapAt(dates, i);
    RankOfPosition(dates, i);
  }

  lemma ProperSubsetSmaller(a: set<int>, b: set<int>)
    requires a < b
    ensures |a| < |b|
  {
    assert b == a + (b - a);
    assert b - a != {};
  }

  /** Ranks strictly increase with the date. */
  lemma RankStrictlyIncreasing(ds: set<int>, d1: int, d2: int)
    requires d1 in ds && d2 in ds && d1 < d2
    ensures Rank(ds, d1) < Rank(ds, d2)
  {
    var below1 := set e | e in ds && e < d1;
    var below2 := set e | e in ds && e < d2;
    assert below1 < below2 by {
      assert d1 in below2 && d1 !in below1;
    }
    ProperSubsetSmaller(below1, below2);
  }

  ghost predicate RankTaken(dates: seq<int>, k: nat) {
    exists d :: d in dates && Rank(Elems(dates), d) == k
  }

  /** Ranks are dense: with N distinct dates they are exactly 1, 2, ..., N. */
  lemma RanksDense(dates: seq<int>)
    ensures forall d :: d in dates ==> 1 <= Rank(Elems(dates), d) <= |Elems(dates)|
    ensures forall k :: 1 <= k <= |Elems(dates)| ==> RankTaken(dates, k)
  {
    var u := SortedUnique(dates);
    DistinctCount(u);
    forall d | d in dates ensures Rank(Elems(dates), d) <= |Elems(dates)| {
      assert d in Elems(u);
      var i :| 0 <= i < |u| && u[i] == d;
      RankOfPosition(dates, i);
    }
    forall k | 1 <= k <= |Elems(dates)| ensures RankTaken(dates, k) {
      RankOfPosition(dates, k - 1);
      assert u[k - 1] in Elems(u);
    }
  }

  /** The week map is a bijection from the distinct dates onto "Week 1" ... "Week N".
      That it preserves order (an earlier date gets a smaller week) follows from
      `DateToWeekMapRanks` together with `RankStrictlyIncreasing`. */
  lemma DateToWeekMapBijective(dates: seq<int>)
    ensures var m := DateToWeekMap(dates);
            && (forall d1, d2 :: d1 in m && d2 in m && d1 != d2 ==> m[d1] != m[d2])
            && m.Values == set k | 1 <= k <= |Elems(dates)| :: WeekLabel(k)
  {
    var m := DateToWeekMap(dates);
    DateToWeekMapRanks(dates);
    RanksDense(dates);
    forall d1, d2 | d1 in m && d2 in m && d1 != d2 ensures m[d1] != m[d2] {
      if d1 < d2 {
        RankStrictlyIncreasing(Elems(dates), d1, d2);
      } else {
        RankStrictlyIncreasing(Elems(dates), d2, d1);
      }
      WeekLabelInjective(Rank(Elems(dates), d1), Rank(Elems(dates), d2));
    }
    forall k | 1 <= k <= |Elems(dates)| ensures WeekLabel(k) in m.Values {
      assert RankTaken(dates, k);
      var d :| d in dates && Rank(Elems(dates), d) == k;
      assert d in Elems(dates);
      assert m[d] == WeekLabel(k);
    }
  }

  /** The week map depends only on which dates occur, not on their order or repeats. */
  lemma DateToWeekMapOfSameDates(a: seq<int>, b: seq<int>)
    requires Elems(a) == Elems(b)
    ensures DateToWeekMap(a) == DateToWeekMap(b)
  {
    AscendingListUnique(SortedUnique(a), SortedUnique(b));
  }
}
