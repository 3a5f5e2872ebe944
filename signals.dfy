// Signal normalisation: keep the earliest signal of every (symbol, calendar day)
// and order the survivors by time.

module Signals {

  const MINUTES_PER_DAY: int := 1440

  /** A parsed input row: the symbol and its timestamp in minutes. */
  datatype Signal = Signal(symbol: string, t: int)

  /** The calendar day of a timestamp (the `date_only` column). */
  function Day(t: int): int
  {
    t / MINUTES_PER_DAY
  }

  /** The grouping key: (symbol, calendar day). */
  function Key(s: Signal): (string, int)
  {
    (s.symbol, Day(s.t))
  }

  predicate Chronological(es: seq<Signal>)
  {
    forall i, j :: 0 <= i < j < |es| ==> es[i].t <= es[j].t
  }

  predicate OnePerDay(es: seq<Signal>)
  {
    forall i, j :: 0 <= i < j < |es| ==> Key(es[i]) != Key(es[j])
  }

  /** `e` is one of the signals and no signal of its (symbol, day) is earlier. */
  ghost predicate IsFirstOfDay(signals: seq<Signal>, e: Signal)
  {
    e in signals && forall x :: x in signals && Key(x) == Key(e) ==> e.t <= x.t
  }

  /** Removes every entry whose key is `k`, keeping the order of the others. */
  function WithoutKey(es: seq<Signal>, k: (string, int)): (r: seq<Signal>)
    ensures |r| <= |es|
    ensures forall e :: e in r <==> e in es && Key(e) != k
    ensures Chronological(es) ==> Chronological(r)
    ensures OnePerDay(es) ==> OnePerDay(r)
  {
    if es == [] then []
    else if Key(es[0]) == k then WithoutKey(es[1..], k)
    else
      var rest := WithoutKey(es[1..], k);
      assert forall j :: 0 <= j < |rest| ==> rest[j] in es[1..];
      [es[0]] + rest
  }

  /** Inserts `x` before the first entry that is not earlier than it. */
  function InsertByTime(es: seq<Signal>, x: Signal): (r: seq<Signal>)
    ensures |r| == |es| + 1
    ensures forall e :: e in r <==> e in es || e == x
  {
    if es == [] then [x]
    else if x.t <= es[0].t then [x] + es
    else [es[0]] + InsertByTime(es[1..], x)
  }

  lemma {:induction false} InsertByTimeChronological(es: seq<Signal>, x: Signal)
    requires Chronological(es)
    ensures Chronological(InsertByTime(es, x))
  {
    if es != [] && x.t > es[0].t {
      InsertByTimeChronological(es[1..], x);
      var rest := InsertByTime(es[1..], x);
      forall j | 0 <= j < |rest|
        ensures es[0].t <= rest[j].t
      {
        assert rest[j] in es[1..] || rest[j] == x;
      }
    }
  }

  lemma {:induction false} InsertByTimeOnePerDay(es: seq<Signal>, x: Signal)
    requires OnePerDay(es)
    requires forall e :: e in es ==> Key(e) != Key(x)
    ensures OnePerDay(InsertByTime(es, x))
  {
    if es != [] && x.t > es[0].t {
      InsertByTimeOnePerDay(es[1..], x);
      var rest := InsertByTime(es[1..], x);
      forall j | 0 <= j < |rest|
        ensures Key(es[0]) != Key(rest[j])
      {
        assert rest[j] in es[1..] || rest[j] == x;
      }
    }
  }

  /** Folds one more signal into entries that are already first-of-day for a prefix. */
  function Admit(es: seq<Signal>, x: Signal): seq<Signal>
  {
    if exists e :: e in es && Key(e) == Key(x) && e.t <= x.t then es
    else InsertByTime(WithoutKey(es, Key(x)), x)
  }

  /** The entry list: one signal per (symbol, day), ordered by time. */
  function FirstEntries(signals: seq<Signal>): (es: seq<Signal>)
    ensures Chronological(es)
    ensures OnePerDay(es)
    ensures |es| <= |signals|
  {
    if signals == [] then []
    else
      var prefix := FirstEntries(signals[..|signals| - 1]);
      var x := signals[|signals| - 1];
      InsertByTimeChronological(WithoutKey(prefix, Key(x)), x);
      InsertByTimeOnePerDay(WithoutKey(prefix, Key(x)), x);
      Admit(prefix, x)
  }

  /** Under OnePerDay, the key identifies the entry. */
  lemma SameKeySameEntry(es: seq<Signal>, a: Signal, b: Signal)
    requires OnePerDay(es) && a in es && b in es && Key(a) == Key(b)
    ensures a == b
  {
    var i :| 0 <= i < |es| && es[i] == a;
    var j :| 0 <= j < |es| && es[j] == b;
    assert i == j;
  }

  /** Every signal has an earliest signal of its own (symbol, day). */
  lemma {:induction false} EarliestExists(signals: seq<Signal>, x: Signal)
    requires x in signals
    ensures exists m :: IsFirstOfDay(signals, m) && Key(m) == Key(x) && m.t <= x.t
  {
    var last := signals[|signals| - 1];
    var prefix := signals[..|signals| - 1];
    assert signals == prefix + [last];
    if x in prefix {
      EarliestExists(prefix, x);
      var m :| IsFirstOfDay(prefix, m) && Key(m) == Key(x) && m.t <= x.t;
      if Key(last) == Key(x) && last.t < m.t {
        assert IsFirstOfDay(signals, last);
      } else {
        assert IsFirstOfDay(signals, m);
      }
    } else {
      assert x == last;
      if exists y :: y in prefix && Key(y) == Key(x) && y.t < x.t {
        var y :| y in prefix && Key(y) == Key(x) && y.t < x.t;
        EarliestExists(prefix, y);
        var m :| IsFirstOfDay(prefix, m) && Key(m) == Key(y) && m.t <= y.t;
        assert IsFirstOfDay(signals, m);
      } else {
        assert IsFirstOfDay(signals, x);
      }
    }
  }

  /** An entry is kept exactly when it is the earliest signal of its (symbol, day). */
  lemma {:induction false} FirstEntriesAreEarliest(signals: seq<Signal>)
    ensures forall e :: e in FirstEntries(signals) <==> IsFirstOfDay(signals, e)
  {
    if signals != [] {
      var last := signals[|signals| - 1];
      var prefix := signals[..|signals| - 1];
      assert signals == prefix + [last];
      FirstEntriesAreEarliest(prefix);
      var es := FirstEntries(prefix);
      if exists e0 :: e0 in es && Key(e0) == Key(last) && e0.t <= last.t {
        AdmitLater(prefix, es, last);
      } else {
        AdmitEarlier(prefix, es, last);
      }
    }
  }

  /** Admitting a signal that is not earlier than its day's entry changes nothing. */
  lemma AdmitLater(prefix: seq<Signal>, es: seq<Signal>, x: Signal)
    requires OnePerDay(es)
    requires forall e :: e in es <==> IsFirstOfDay(prefix, e)
    requires exists e0 :: e0 in es && Key(e0) == Key(x) && e0.t <= x.t
    ensures forall e :: e in Admit(es, x) <==> IsFirstOfDay(prefix + [x], e)
  {
    var e0 :| e0 in es && Key(e0) == Key(x) && e0.t <= x.t;
    assert Admit(es, x) == es;
    var s := prefix + [x];
    forall e | e in es
      ensures IsFirstOfDay(s, e)
    {
      if Key(e) == Key(x) {
        SameKeySameEntry(es, e, e0);
      }
    }
    forall e | IsFirstOfDay(s, e)
      ensures e in es
    {
      if e == x {
        assert e0 in s;
      } else {
        assert IsFirstOfDay(prefix, e);
      }
    }
  }

  /** A signal earlier than every signal of its day so far replaces that day's entry. */
  lemma AdmitEarlier(prefix: seq<Signal>, es: seq<Signal>, x: Signal)
    requires forall e :: e in es <==> IsFirstOfDay(prefix, e)
    requires !exists e0 :: e0 in es && Key(e0) == Key(x) && e0.t <= x.t
    ensures forall e :: e in Admit(es, x) <==> IsFirstOfDay(prefix + [x], e)
  {
    var s := prefix + [x];
    var r := Admit(es, x);
    assert r == InsertByTime(WithoutKey(es, Key(x)), x);
    forall y | y in prefix && Key(y) == Key(x)
      ensures x.t < y.t
    {
      EarliestExists(prefix, y);
      var m :| IsFirstOfDay(prefix, m) && Key(m) == Key(y) && m.t <= y.t;
      assert m in es;
    }
    assert IsFirstOfDay(s, x);
    forall e | e in r
      ensures IsFirstOfDay(s, e)
    {
      if e != x {
        assert e in es && Key(e) != Key(x);
      }
    }
    forall e | IsFirstOfDay(s, e)
      ensures e in r
    {
      if e != x {
        assert IsFirstOfDay(prefix, e);
      }
    }
  }

  /** Every (symbol, day) that has a signal has an entry. */
  lemma EveryDayHasEntry(signals: seq<Signal>, x: Signal)
    requires x in signals
    ensures exists e :: e in FirstEntries(signals) && Key(e) == Key(x) && e.t <= x.t
  {
    EarliestExists(signals, x);
    FirstEntriesAreEarliest(signals);
  }
}
