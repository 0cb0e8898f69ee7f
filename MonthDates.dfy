/** The month generator: every day of the month `steps` months from the
    anchor, built as "first of the month plus i days" and then sorted. */
module MonthDates {
  import opened Gregorian

  /** The comparator handed to the sort: 1 when a is later, -1 when b is later, 0 otherwise. */
  function Compare(a: Date, b: Date): (c: int)
    ensures c == 1 <==> Before(b, a)
    ensures c == -1 <==> Before(a, b)
    ensures c == 0 <==> a == b
  {
    if Before(b, a) then 1
    else if Before(a, b) then -1
    else 0
  }

  /** No element is later than an element after it. */
  predicate Ordered(s: seq<Date>) {
    forall i, j :: 0 <= i < j < |s| ==> Compare(s[i], s[j]) <= 0
  }

  /** Inserts x in front of the first element it is not later than. */
  function Insert(x: Date, s: seq<Date>): (r: seq<Date>)
    ensures multiset(r) == multiset(s) + multiset{x}
  {
    if s == [] then [x]
    else if Compare(x, s[0]) > 0 then
      assert s == [s[0]] + s[1..];
      [s[0]] + Insert(x, s[1..])
    else [x] + s
  }

  /** Inserting into an ordered sequence keeps it ordered. */
  lemma {:induction false} InsertOrdered(x: Date, s: seq<Date>)
    requires Ordered(s)
    ensures Ordered(Insert(x, s))
  {
    if s != [] && Compare(x, s[0]) > 0 {
      assert Ordered(s[1..]);
      InsertOrdered(x, s[1..]);
      var tail := Insert(x, s[1..]);
      forall k | 0 <= k < |tail|
        ensures Compare(s[0], tail[k]) <= 0
      {
        assert tail[k] in multiset(tail);
        if tail[k] != x {
          assert tail[k] in multiset(s[1..]);
          var j :| 0 <= j < |s[1..]| && s[1..][j] == tail[k];
          assert s[1 + j] == tail[k];
        }
      }
    }
  }

  /** Insertion sort by Compare. Compare is 0 only on equal dates, so every
      sorting algorithm the runtime may use gives this result (OrderedUnique). */
  function Sort(s: seq<Date>): (r: seq<Date>)
    ensures multiset(r) == multiset(s)
    ensures Ordered(r)
  {
    if s == [] then []
    else
      assert s == [s[0]] + s[1..];
      InsertOrdered(s[0], Sort(s[1..]));
      Insert(s[0], Sort(s[1..]))
  }

  /** The month's days, each one the first of the month plus i days: element i
      is day i + 1 of the month. */
  function MonthDays(target: YearMonth): (r: seq<Date>)
    requires ValidMonth(target)
    ensures |r| == DaysInMonth(target.year, target.month)
    ensures forall i :: 0 <= i < |r| ==> r[i] == Date(target.year, target.month, i + 1)
  {
    var first := Date(target.year, target.month, 1);
    PlusDaysFromFirst(target);
    seq(DaysInMonth(target.year, target.month), (i: nat) => PlusDays(first, i))
  }

  /** The days of the month `steps` months away from the anchor: element i is
      day i + 1 of that month. */
  function GetDates(startingMonth: YearMonth, steps: int): (r: seq<Date>)
    requires ValidMonth(startingMonth) && -1 <= steps <= 1
    ensures var t := AddMonths(startingMonth, steps);
      && |r| == DaysInMonth(t.year, t.month)
      && (forall i :: 0 <= i < |r| ==> r[i] == Date(t.year, t.month, i + 1))
  {
    var t := AddMonths(startingMonth, steps);
    SortOrdered(MonthDays(t));
    Sort(MonthDays(t))
  }

  // ---------------------------------------------------------------------------
  // Lemmas

  /** Sorting a sequence that is already in order changes nothing. */
  lemma {:induction false} SortOrdered(s: seq<Date>)
    requires Ordered(s)
    ensures Sort(s) == s
  {
    if s != [] {
      assert Ordered(s[1..]);
      SortOrdered(s[1..]);
      if |s| > 1 {
        assert Compare(s[0], s[1]) <= 0;
      }
    }
  }

  /** The head of an ordered sequence is not later than any of its elements. */
  lemma HeadIsLeast(s: seq<Date>, x: Date)
    requires Ordered(s) && x in multiset(s)
    ensures Compare(s[0], x) <= 0
  {
    var i :| 0 <= i < |s| && s[i] == x;
    if i > 0 {
      assert Compare(s[0], s[i]) <= 0;
    }
  }

  /** Two ordered sequences with the same elements are equal. */
  lemma {:induction false} OrderedUnique(a: seq<Date>, b: seq<Date>)
    requires Ordered(a) && Ordered(b) && multiset(a) == multiset(b)
    ensures a == b
  {
    if a == [] {
      assert |multiset(b)| == 0;
    } else {
      assert a[0] in multiset(a);
      assert b != [];
      assert b[0] in multiset(b);
      HeadIsLeast(a, b[0]);
      HeadIsLeast(b, a[0]);
      assert a[0] == b[0];
      assert a == [a[0]] + a[1..];
      assert b == [b[0]] + b[1..];
      assert multiset(a) == multiset{a[0]} + multiset(a[1..]);
      assert multiset(b) == multiset{a[0]} + multiset(b[1..]);
      assert forall x :: multiset(a[1..])[x] == multiset(b[1..])[x] by {
        forall x ensures multiset(a[1..])[x] == multiset(b[1..])[x] {
          assert multiset(a)[x] == multiset{a[0]}[x] + multiset(a[1..])[x];
          assert multiset(b)[x] == multiset{a[0]}[x] + multiset(b[1..])[x];
        }
      }
      assert multiset(a[1..]) == multiset(b[1..]);
      assert Ordered(a[1..]);
      assert Ordered(b[1..]);
      OrderedUnique(a[1..], b[1..]);
    }
  }

  /** The first of a month plus i days is day i + 1, for every day of the month. */
  lemma PlusDaysFromFirst(target: YearMonth)
    requires ValidMonth(target)
    ensures forall i: nat :: i < DaysInMonth(target.year, target.month) ==>
      PlusDays(Date(target.year, target.month, 1), i) == Date(target.year, target.month, i + 1)
  {
    var first := Date(target.year, target.month, 1);
    forall i: nat | i < DaysInMonth(target.year, target.month)
      ensures PlusDays(first, i) == Date(target.year, target.month, i + 1)
    {
      PlusDaysInMonth(first, i);
    }
  }

  /** The sort leaves the built month as it is. */
  lemma SortKeepsMonth(startingMonth: YearMonth, steps: int)
    requires ValidMonth(startingMonth) && -1 <= steps <= 1
    ensures GetDates(startingMonth, steps) == MonthDays(AddMonths(startingMonth, steps))
  {
    SortOrdered(MonthDays(AddMonths(startingMonth, steps)));
  }

  /** The generated month is gap-free and strictly ascending: every element is a
      valid date and the next element is the next day, one weekday further on. */
  lemma GetDatesConsecutive(startingMonth: YearMonth, steps: int)
    requires ValidMonth(startingMonth) && -1 <= steps <= 1
    ensures var r := GetDates(startingMonth, steps);
      && (forall i :: 0 <= i < |r| ==> ValidDate(r[i]))
      && (forall i :: 0 <= i < |r| - 1 ==> r[i + 1] == NextDay(r[i]) && Before(r[i], r[i + 1]))
      && (forall i :: 0 <= i < |r| - 1 ==> Weekday(r[i + 1]) == Weekday(r[i]) % 7 + 1)
      && (forall i, j :: 0 <= i < j < |r| ==> Before(r[i], r[j]))
  {
    var r := GetDates(startingMonth, steps);
    forall i | 0 <= i < |r| - 1
      ensures Weekday(r[i + 1]) == Weekday(r[i]) % 7 + 1
    {
      NextWeekday(r[i]);
    }
  }
}
