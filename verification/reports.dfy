/** The report value produced by a structural comparison of two automata
    (`_FSAStructuralEqualityReport` in rayuela/fsa/fsa_testing.py).

    A report is a mapping from mismatch category to the list of messages
    recorded under it, plus a title and a maximum cell width that only
    matter when the report is rendered (as does the insertion order of the
    categories, which is therefore not kept). The comparator only ever
    extends the mapping through `Append`, which is how a `defaultdict(list)`
    grows, so no category is ever created without a message. */
module Reports {
  import opened Wrappers

  /** The closed set of mismatch categories, one per structural check. */
  datatype Category = Semiring | Alphabet | States | StateWeights | Arcs | ArcWeights

  datatype Report<M> = Report(sections: map<Category, seq<M>>, title: Option<string>, maxwidth: int)

  /** The right-hand operand of report equality: another report, or any
      value that is not a report. */
  datatype Operand<M> = ReportValue(report: Report<M>) | OtherValue

  /** The default cell width of a report. */
  const DefaultWidth: int := 80

  /** A fresh report with no categories. */
  function NewReport<M>(title: Option<string>): (r: Report<M>)
    ensures Keys(r) == {}
    ensures WellBuilt(r)
    ensures r.title == title && r.maxwidth == DefaultWidth
  {
    Report(map[], title, DefaultWidth)
  }

  /** The categories present in a report (the keys of the mapping). */
  function Keys<M>(r: Report<M>): (cs: set<Category>)
  {
    r.sections.Keys
  }

  /** The messages recorded under `c`, in insertion order; empty when the
      category is absent. */
  function Lookup<M>(r: Report<M>, c: Category): (ms: seq<M>)
  {
    if c in r.sections then r.sections[c] else []
  }

  /** The messages recorded under `c`, ignoring order and repetition. */
  function MessageSet<M>(r: Report<M>, c: Category): (ms: set<M>)
  {
    set m | m in Lookup(r, c)
  }

  /** The invariant of the mapping: no category is present with zero
      messages. */
  ghost predicate Valid<M>(r: Report<M>)
  {
    forall c :: c in r.sections ==> |r.sections[c]| > 0
  }

  /** No message is recorded twice under the same category. */
  ghost predicate NoRepeats<M>(r: Report<M>)
  {
    forall c, j, k :: c in r.sections && 0 <= j < k < |r.sections[c]| ==> r.sections[c][j] != r.sections[c][k]
  }

  /** The invariant of a report while a comparison builds it: a valid
      mapping with no message recorded twice. */
  ghost predicate WellBuilt<M>(r: Report<M>)
  {
    Valid(r) && NoRepeats(r)
  }

  /** `mismatches[c].append(m)` on a `defaultdict(list)`: records `m` under
      `c`, creating the category when it is not yet present. */
  function Append<M>(r: Report<M>, c: Category, m: M): (r': Report<M>)
    ensures Lookup(r', c) == Lookup(r, c) + [m]
    ensures forall d :: d != c ==> Lookup(r', d) == Lookup(r, d)
    ensures Keys(r') == Keys(r) + {c}
    ensures r'.title == r.title && r'.maxwidth == r.maxwidth
  {
    r.(sections := r.sections[c := Lookup(r, c) + [m]])
  }

  /** One `append` of a check: records a message not yet recorded under
      `c`, keeping the report well built. */
  function Record<M>(r: Report<M>, c: Category, m: M): (r': Report<M>)
    requires WellBuilt(r) && m !in MessageSet(r, c)
    ensures WellBuilt(r')
    ensures MessageSet(r', c) == MessageSet(r, c) + {m}
    ensures forall d :: d != c ==> Lookup(r', d) == Lookup(r, d)
    ensures r'.title == r.title && r'.maxwidth == r.maxwidth
  {
    AppendWellBuilt(r, c, m);
    Append(r, c, m)
  }

  /** `structurally_equal`: the comparison found nothing to report. */
  predicate StructurallyEqual<M>(r: Report<M>)
  {
    |r.sections| == 0
  }

  /** `__eq__`: equal key sets and, per key, equal message sets; never equal
      to a value that is not a report. Title and width are ignored. */
  predicate Eq<M(==)>(r: Report<M>, other: Operand<M>)
  {
    match other
    case OtherValue => false
    case ReportValue(o) =>
      Keys(r) == Keys(o) && forall c :: c in Keys(r) ==> MessageSet(r, c) == MessageSet(o, c)
  }

  /** Appending a message not yet recorded under a category keeps a report
      well built. */
  lemma AppendWellBuilt<M>(r: Report<M>, c: Category, m: M)
    requires WellBuilt(r) && m !in MessageSet(r, c)
    ensures WellBuilt(Append(r, c, m))
    ensures MessageSet(Append(r, c, m), c) == MessageSet(r, c) + {m}
  {
    var r' := Append(r, c, m);
    assert Lookup(r', c) == Lookup(r, c) + [m];
  }

  /** In a valid report a category is a key exactly when it holds a message. */
  lemma KeyIffMessages<M>(r: Report<M>, c: Category)
    requires Valid(r)
    ensures c in Keys(r) <==> MessageSet(r, c) != {}
  {
    if c in Keys(r) {
      assert Lookup(r, c)[0] in MessageSet(r, c);
    }
  }

  /** `structurally_equal` holds exactly when no category is present, and in
      a valid report exactly when every category holds no message. */
  lemma VerdictIffNoMessages<M>(r: Report<M>)
    requires Valid(r)
    ensures StructurallyEqual(r) <==> Keys(r) == {}
    ensures StructurallyEqual(r) <==> forall c :: MessageSet(r, c) == {}
  {
    if |r.sections| > 0 {
      var c :| c in r.sections;
      KeyIffMessages(r, c);
    }
  }

  /** For valid reports, report equality is equality of the per-category
      message sets: presence of a key carries no information beyond its
      messages. */
  lemma EqIffSameMessageSets<M>(r1: Report<M>, r2: Report<M>)
    requires Valid(r1) && Valid(r2)
    ensures Eq(r1, ReportValue(r2)) <==> forall c :: MessageSet(r1, c) == MessageSet(r2, c)
  {
    if forall c :: MessageSet(r1, c) == MessageSet(r2, c) {
      forall c
        ensures c in Keys(r1) <==> c in Keys(r2)
      {
        KeyIffMessages(r1, c);
        KeyIffMessages(r2, c);
      }
    }
    if Eq(r1, ReportValue(r2)) {
      forall c
        ensures MessageSet(r1, c) == MessageSet(r2, c)
      {
        if c !in Keys(r1) {
          KeyIffMessages(r1, c);
          KeyIffMessages(r2, c);
        }
      }
    }
  }

  /** Report equality ignores title, width and the order of the messages
      within a category. */
  lemma EqIgnoresOrder<M>(r1: Report<M>, r2: Report<M>)
    requires Valid(r1) && Valid(r2)
    requires forall c :: multiset(Lookup(r1, c)) == multiset(Lookup(r2, c))
    ensures Eq(r1, ReportValue(r2))
  {
    forall c
      ensures MessageSet(r1, c) == MessageSet(r2, c)
    {
      assert forall m :: m in Lookup(r1, c) <==> m in multiset(Lookup(r1, c));
      assert forall m :: m in Lookup(r2, c) <==> m in multiset(Lookup(r2, c));
    }
    EqIffSameMessageSets(r1, r2);
  }

  /** Report equality is an equivalence relation on reports, and no report
      equals a value that is not a report. */
  lemma EqIsEquivalence<M>(r1: Report<M>, r2: Report<M>, r3: Report<M>)
    ensures Eq(r1, ReportValue(r1))
    ensures Eq(r1, ReportValue(r2)) ==> Eq(r2, ReportValue(r1))
    ensures Eq(r1, ReportValue(r2)) && Eq(r2, ReportValue(r3)) ==> Eq(r1, ReportValue(r3))
    ensures !Eq(r1, OtherValue)
  {
  }

  /** A sequence without repetitions has as many elements as its set. */
  lemma {:induction false} DistinctCount<M>(s: seq<M>)
    requires forall j, k :: 0 <= j < k < |s| ==> s[j] != s[k]
    ensures |set m | m in s| == |s|
  {
    if |s| > 0 {
      var t := s[..|s| - 1];
      DistinctCount(t);
      assert (set m | m in s) == (set m | m in t) + {s[|s| - 1]};
      assert s[|s| - 1] !in (set m | m in t);
    }
  }

  /** In a report without repeated messages, every category holds as many
      messages as it holds distinct ones. */
  lemma CountIsDistinct<M>(r: Report<M>, c: Category)
    requires NoRepeats(r)
    ensures |Lookup(r, c)| == |MessageSet(r, c)|
  {
    if c in r.sections {
      DistinctCount(r.sections[c]);
    }
  }
}
