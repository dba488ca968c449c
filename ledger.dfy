/** The session's weight history (main.py:21-44): timestamped records that
    the weight form appends, one per accepted submission. */
module Ledger {

  /** An instant at one-second precision: the six fields of the
      "%Y-%m-%d %H:%M:%S" text that each record carries. */
  datatype Timestamp = Timestamp(year: nat, month: nat, day: nat, hour: nat, minute: nat, second: nat)

  /** The fields of an instant from the most to the least significant. */
  function Fields(t: Timestamp): (f: seq<nat>)
    ensures |f| == 6
  {
    [t.year, t.month, t.day, t.hour, t.minute, t.second]
  }

  /** Lexicographic order on equally long field lists. */
  predicate LexNotAfter(a: seq<nat>, b: seq<nat>)
    requires |a| == |b|
  {
    a == [] || a[0] < b[0] || (a[0] == b[0] && LexNotAfter(a[1..], b[1..]))
  }

  /** Chronological order on instants: `a` is not later than `b`. Comparing
      the fields from the year down to the second is the order of the
      parsed date-times, and also that of the fixed-width texts. */
  predicate NotAfter(a: Timestamp, b: Timestamp)
  {
    LexNotAfter(Fields(a), Fields(b))
  }

  lemma {:induction false} LexTotal(a: seq<nat>, b: seq<nat>)
    requires |a| == |b|
    ensures LexNotAfter(a, b) || LexNotAfter(b, a)
  {
    if a != [] && a[0] == b[0] {
      LexTotal(a[1..], b[1..]);
    }
  }

  lemma {:induction false} LexTransitive(a: seq<nat>, b: seq<nat>, c: seq<nat>)
    requires |a| == |b| == |c|
    requires LexNotAfter(a, b) && LexNotAfter(b, c)
    ensures LexNotAfter(a, c)
  {
    if a != [] && a[0] == b[0] == c[0] {
      LexTransitive(a[1..], b[1..], c[1..]);
    }
  }

  lemma {:induction false} LexAntisymmetric(a: seq<nat>, b: seq<nat>)
    requires |a| == |b|
    requires LexNotAfter(a, b) && LexNotAfter(b, a)
    ensures a == b
  {
    if a != [] {
      LexAntisymmetric(a[1..], b[1..]);
      assert a == [a[0]] + a[1..] && b == [b[0]] + b[1..];
    }
  }

  lemma NotAfterTotal(a: Timestamp, b: Timestamp)
    ensures NotAfter(a, b) || NotAfter(b, a)
  {
    LexTotal(Fields(a), Fields(b));
  }

  lemma NotAfterTransitive(a: Timestamp, b: Timestamp, c: Timestamp)
    requires NotAfter(a, b) && NotAfter(b, c)
    ensures NotAfter(a, c)
  {
    LexTransitive(Fields(a), Fields(b), Fields(c));
  }

  lemma NotAfterAntisymmetric(a: Timestamp, b: Timestamp)
    requires NotAfter(a, b) && NotAfter(b, a)
    ensures a == b
  {
    LexAntisymmetric(Fields(a), Fields(b));
    assert Fields(a)[0] == Fields(b)[0] && Fields(a)[1] == Fields(b)[1] && Fields(a)[2] == Fields(b)[2];
    assert Fields(a)[3] == Fields(b)[3] && Fields(a)[4] == Fields(b)[4] && Fields(a)[5] == Fields(b)[5];
  }

  /** Distinct instants are in order one way round only. */
  lemma NotAfterAntisymmetricStrict(a: Timestamp, b: Timestamp)
    requires NotAfter(a, b) && a != b
    ensures !NotAfter(b, a)
  {
    if NotAfter(b, a) {
      NotAfterAntisymmetric(a, b);
    }
  }

  /** Reflexivity: equal instants are in order either way round. */
  lemma NotAfterReflexive(a: Timestamp)
    ensures NotAfter(a, a)
  {
    NotAfterTotal(a, a);
  }

  /** A body weight in tenths of a kilogram; the input field works to one
      decimal place. */
  type Weight = int

  /** One entry of the history: the `Date` and `Weight` keys of the source's
      dictionaries. */
  datatype Record = Record(date: Timestamp, weight: Weight)

  /** Which message the submit handler shows. */
  datatype Feedback = WeightAdded | InvalidWeight

  ghost predicate AllPositive(s: seq<Record>)
  {
    forall i :: 0 <= i < |s| ==> s[i].weight > 0
  }

  /** The session-state list `weight_data`. The clock is a parameter: `now`
      stands for the formatted `datetime.now()` of the call. */
  class WeightLog {
    var records: seq<Record>

    /** Every stored weight passed the submit handler's guard. */
    ghost predicate Valid()
      reads this
    {
      AllPositive(records)
    }

    /** A new session starts with an empty history. */
    constructor ()
      ensures records == [] && Valid()
    {
      records := [];
    }

    /** `add_weight`: append one record stamped `now`, guard-free as in the
        source, so the invariant holds afterwards exactly when it held
        before and the weight is positive. */
    method AddWeight(now: Timestamp, weight: Weight)
      modifies this
      ensures records == old(records) + [Record(now, weight)]
      ensures Valid() <==> old(Valid()) && weight > 0
    {
      ghost var before := records;
      records := records + [Record(now, weight)];
      assert records[|before|].weight == weight;
      assert forall i :: 0 <= i < |before| ==> records[i] == before[i];
    }

    /** The submit handler: a strictly positive weight is appended and
        acknowledged; any other weight is reported and nothing is stored. */
    method Submit(now: Timestamp, weight: Weight) returns (feedback: Feedback)
      modifies this
      ensures old(Valid()) ==> Valid()
      ensures feedback == WeightAdded <==> weight > 0
      ensures weight > 0 ==> records == old(records) + [Record(now, weight)]
      ensures weight <= 0 ==> records == old(records)
    {
      if weight > 0 {
        AddWeight(now, weight);
        feedback := WeightAdded;
      } else {
        feedback := InvalidWeight;
      }
    }
  }
}
