/** The structural comparison of two automata
    (`fsa_structural_equality_report` and `fsa_structurally_equal` in
    rayuela/fsa/fsa_testing.py).

    The comparison runs six checks without short-circuiting and records
    what it finds in a report, one category per check. `Mismatches` states,
    per category, the set of messages the comparison must record; the method
    `StructuralEqualityReport` builds the report the way the source does and
    is proved to record exactly those messages, each once. */
module Comparator {
  import opened Wrappers
  import opened Automata
  import opened Reports

  /** What a mismatch message reports, in place of its formatted text.
      "First" and "second" refer to the operands in call order. */
  datatype Message<K, S(==), A(==), W> =
    | SemiringMismatch(r1: K, r2: K)
    | InputAlphabetMismatch(sigma1: set<A>, sigma2: set<A>)
    | OutputAlphabetMismatch(omega1: set<A>, omega2: set<A>)
    | StatesOnlyInFirst(states: set<S>)
    | StatesOnlyInSecond(states: set<S>)
    | InitialWeightMismatch(q: S, w1: W, w2: W)
    | FinalWeightMismatch(q: S, w1: W, w2: W)
    | ArcsMissingInFirst(ids: set<ArcId<S, A>>)
    | ArcsMissingInSecond(ids: set<ArcId<S, A>>)
    | ArcWeightMismatch(id: ArcId<S, A>, w1: W, w2: W)

  /** One arc identity carrying weight `w1` in the first operand and `w2`
      in the second. */
  datatype WeightMismatch<S, A, W> = WeightMismatch(id: ArcId<S, A>, w1: W, w2: W)

  /** `_arc_weight_mismatch`: every pair of arcs, one from each set, that
      share an identity but not a weight. */
  function ArcWeightMismatches<S(==), A(==), W(==)>(arcs1: set<Arc<S, A, W>>, arcs2: set<Arc<S, A, W>>)
    : (ms: set<WeightMismatch<S, A, W>>)
  {
    set x, y | x in arcs1 && y in arcs2 && x.Id() == y.Id() && x.w != y.w :: WeightMismatch(x.Id(), x.w, y.w)
  }

  /** The same mismatches computed as a join keyed by arc identity: each
      identity present in both tables whose two weights differ. */
  function SharedIdentityMismatches<K(==), S(==,!new), A(==,!new), W(==,!new)>(a1: Automaton<K, S, A, W>, a2: Automaton<K, S, A, W>)
    : (ms: set<WeightMismatch<S, A, W>>)
  {
    set id | id in Ids(a1) && HasArc(a2, id) && WeightOf(a1, id) != WeightOf(a2, id)
      :: WeightMismatch(id, WeightOf(a1, id), WeightOf(a2, id))
  }

  // Per-category reference definitions: the messages each check records.

  function SemiringMessages<K(==), S(==,!new), A(==,!new), W(==,!new)>(a1: Automaton<K, S, A, W>, a2: Automaton<K, S, A, W>)
    : (ms: set<Message<K, S, A, W>>)
  {
    if a1.R != a2.R then {SemiringMismatch(a1.R, a2.R)} else {}
  }

  function AlphabetMessages<K(==), S(==,!new), A(==,!new), W(==,!new)>(a1: Automaton<K, S, A, W>, a2: Automaton<K, S, A, W>)
    : (ms: set<Message<K, S, A, W>>)
  {
    (if a1.Sigma != a2.Sigma then {InputAlphabetMismatch(a1.Sigma, a2.Sigma)} else {})
    + (if a1.IsTransducer() && a2.IsTransducer() && a1.Omega.value != a2.Omega.value
       then {OutputAlphabetMismatch(a1.Omega.value, a2.Omega.value)} else {})
  }

  function StateMessages<K(==), S(==,!new), A(==,!new), W(==,!new)>(a1: Automaton<K, S, A, W>, a2: Automaton<K, S, A, W>)
    : (ms: set<Message<K, S, A, W>>)
  {
    (if a1.Q - a2.Q != {} then {StatesOnlyInFirst(a1.Q - a2.Q)} else {})
    + (if a2.Q - a1.Q != {} then {StatesOnlyInSecond(a2.Q - a1.Q)} else {})
  }

  /** The initial- and final-weight messages for the states in `qs`. */
  function StateWeightMessages<K(==), S(==,!new), A(==,!new), W(==,!new)>(a1: Automaton<K, S, A, W>, a2: Automaton<K, S, A, W>, qs: set<S>)
    : (ms: set<Message<K, S, A, W>>)
  {
    (set q | q in qs && a1.lambda(q) != a2.lambda(q) :: InitialWeightMismatch(q, a1.lambda(q), a2.lambda(q)))
    + (set q | q in qs && a1.rho(q) != a2.rho(q) :: FinalWeightMismatch(q, a1.rho(q), a2.rho(q)))
  }

  function ArcMessages<K(==), S(==,!new), A(==,!new), W(==,!new)>(a1: Automaton<K, S, A, W>, a2: Automaton<K, S, A, W>)
    : (ms: set<Message<K, S, A, W>>)
  {
    var u1 := Unweighted(ArcsOf(a1));
    var u2 := Unweighted(ArcsOf(a2));
    (if u2 - u1 != {} then {ArcsMissingInFirst(u2 - u1)} else {})
    + (if u1 - u2 != {} then {ArcsMissingInSecond(u1 - u2)} else {})
  }

  /** One message per weight mismatch. */
  function WeightMessages<K(==), S(==), A(==), W(==)>(mismatches: set<WeightMismatch<S, A, W>>): (ms: set<Message<K, S, A, W>>)
  {
    set m | m in mismatches :: ArcWeightMismatch(m.id, m.w1, m.w2)
  }

  function ArcWeightMessages<K(==), S(==,!new), A(==,!new), W(==,!new)>(a1: Automaton<K, S, A, W>, a2: Automaton<K, S, A, W>)
    : (ms: set<Message<K, S, A, W>>)
  {
    WeightMessages(ArcWeightMismatches(ArcsOf(a1), ArcsOf(a2)))
  }

  /** The messages the comparison of `a1` with `a2` records under `c`. */
  function Mismatches<K(==), S(==,!new), A(==,!new), W(==,!new)>(a1: Automaton<K, S, A, W>, a2: Automaton<K, S, A, W>, c: Category)
    : (ms: set<Message<K, S, A, W>>)
  {
    match c
    case Semiring => SemiringMessages(a1, a2)
    case Alphabet => AlphabetMessages(a1, a2)
    case States => StateMessages(a1, a2)
    case StateWeights => StateWeightMessages(a1, a2, a1.Q)
    case Arcs => ArcMessages(a1, a2)
    case ArcWeights => ArcWeightMessages(a1, a2)
  }

  /** Structural equality as the comparison's documentation defines it:
      same semiring, same input alphabet (and output alphabet when both are
      transducers), same states, initial and final weights that agree on
      every state, and the same weighted arcs. */
  predicate SameStructure<K(==), S(==,!new), A(==,!new), W(==,!new)>(a1: Automaton<K, S, A, W>, a2: Automaton<K, S, A, W>)
  {
    && a1.R == a2.R
    && a1.Sigma == a2.Sigma
    && (a1.IsTransducer() && a2.IsTransducer() ==> a1.Omega == a2.Omega)
    && a1.Q == a2.Q
    && (forall q :: q in a1.Q ==> a1.lambda(q) == a2.lambda(q) && a1.rho(q) == a2.rho(q))
    && ArcsOf(a1) == ArcsOf(a2)
  }

  /** `fsa_structural_equality_report`: compares `a1` with `a2` and records
      every structural difference, check by check. The report records under
      each category exactly the messages `Mismatches` gives, each once;
      and the verdict is the documented structural equality. */
  method StructuralEqualityReport<K(==), S(==,!new), A(==,!new), W(==,!new)>(a1: Automaton<K, S, A, W>, a2: Automaton<K, S, A, W>, title: Option<string>)
    returns (r: Report<Message<K, S, A, W>>)
    ensures r.title == title && r.maxwidth == DefaultWidth
    ensures WellBuilt(r)
    ensures forall c :: MessageSet(r, c) == Mismatches(a1, a2, c)
    ensures forall c :: |Lookup(r, c)| == |Mismatches(a1, a2, c)|
    ensures StructurallyEqual(r) <==> SameStructure(a1, a2)
  {
    r := RunChecks(a1, a2, title);
    forall c
      ensures |Lookup(r, c)| == |Mismatches(a1, a2, c)|
    {
      CountIsDistinct(r, c);
    }
    VerdictIffNoMessages(r);
    NoMismatchesIffSameStructure(a1, a2);
  }

  /** `fsa_structurally_equal`: the verdict of an untitled comparison. It
      holds exactly when the automata have the same structure, which is
      also when the comparison finds nothing in any category. */
  method IsStructurallyEqual<K(==), S(==,!new), A(==,!new), W(==,!new)>(a1: Automaton<K, S, A, W>, a2: Automaton<K, S, A, W>)
    returns (b: bool)
    ensures b <==> SameStructure(a1, a2)
    ensures b <==> forall c :: Mismatches(a1, a2, c) == {}
  {
    var r := StructuralEqualityReport(a1, a2, None);
    b := StructurallyEqual(r);
    NoMismatchesIffSameStructure(a1, a2);
  }

  /** The six checks in the order the comparison runs them, each filling
      its own category of a fresh report. */
  method RunChecks<K(==), S(==,!new), A(==,!new), W(==,!new)>(a1: Automaton<K, S, A, W>, a2: Automaton<K, S, A, W>, title: Option<string>)
    returns (r: Report<Message<K, S, A, W>>)
    ensures r.title == title && r.maxwidth == DefaultWidth
    ensures WellBuilt(r)
    ensures forall c :: MessageSet(r, c) == Mismatches(a1, a2, c)
  {
    var r0 := NewReport(title);
    var r1 := CheckComponents(a1, a2, r0);
    r := CheckWeightsAndArcs(a1, a2, r1);
    forall c
      ensures MessageSet(r, c) == Mismatches(a1, a2, c)
    {
      if c == Semiring || c == Alphabet || c == States {
        assert Lookup(r, c) == Lookup(r1, c);
      }
    }
  }

  /** Checks 1 to 3: semiring, alphabets and states. */
  method CheckComponents<K(==), S(==,!new), A(==,!new), W(==,!new)>(a1: Automaton<K, S, A, W>, a2: Automaton<K, S, A, W>, r0: Report<Message<K, S, A, W>>)
    returns (r: Report<Message<K, S, A, W>>)
    requires WellBuilt(r0)
    requires Lookup(r0, Semiring) == [] && Lookup(r0, Alphabet) == [] && Lookup(r0, States) == []
    ensures WellBuilt(r)
    ensures MessageSet(r, Semiring) == SemiringMessages(a1, a2)
    ensures MessageSet(r, Alphabet) == AlphabetMessages(a1, a2)
    ensures MessageSet(r, States) == StateMessages(a1, a2)
    ensures forall d :: d != Semiring && d != Alphabet && d != States ==> Lookup(r, d) == Lookup(r0, d)
    ensures r.title == r0.title && r.maxwidth == r0.maxwidth
  {
    var r1 := CheckSemiring(a1, a2, r0);
    var r2 := CheckAlphabets(a1, a2, r1);
    r := CheckStates(a1, a2, r2);
    assert Lookup(r, Semiring) == Lookup(r1, Semiring);
    assert Lookup(r, Alphabet) == Lookup(r2, Alphabet);
  }

  /** Checks 4 to 6: state weights, arcs and arc weights. */
  method CheckWeightsAndArcs<K(==), S(==,!new), A(==,!new), W(==,!new)>(a1: Automaton<K, S, A, W>, a2: Automaton<K, S, A, W>, r0: Report<Message<K, S, A, W>>)
    returns (r: Report<Message<K, S, A, W>>)
    requires WellBuilt(r0)
    requires Lookup(r0, StateWeights) == [] && Lookup(r0, Arcs) == [] && Lookup(r0, ArcWeights) == []
    ensures WellBuilt(r)
    ensures MessageSet(r, StateWeights) == StateWeightMessages(a1, a2, a1.Q)
    ensures MessageSet(r, Arcs) == ArcMessages(a1, a2)
    ensures MessageSet(r, ArcWeights) == ArcWeightMessages(a1, a2)
    ensures forall d :: d != StateWeights && d != Arcs && d != ArcWeights ==> Lookup(r, d) == Lookup(r0, d)
    ensures r.title == r0.title && r.maxwidth == r0.maxwidth
  {
    var r1 := CheckStateWeights(a1, a2, r0);
    var r2 := CheckArcs(a1, a2, r1);
    r := CheckArcWeights(a1, a2, r2);
    assert Lookup(r, StateWeights) == Lookup(r1, StateWeights);
    assert Lookup(r, Arcs) == Lookup(r2, Arcs);
  }

  /** Check 1: the semirings are the same. */
  method CheckSemiring<K(==), S(==,!new), A(==,!new), W(==,!new)>(a1: Automaton<K, S, A, W>, a2: Automaton<K, S, A, W>, r0: Report<Message<K, S, A, W>>)
    returns (r: Report<Message<K, S, A, W>>)
    requires WellBuilt(r0)
    requires Lookup(r0, Semiring) == []
    ensures WellBuilt(r)
    ensures MessageSet(r, Semiring) == SemiringMessages(a1, a2)
    ensures forall d :: d != Semiring ==> Lookup(r, d) == Lookup(r0, d)
    ensures r.title == r0.title && r.maxwidth == r0.maxwidth
  {
    r := r0;
    if a1.R != a2.R {
      r := Record(r, Semiring, SemiringMismatch(a1.R, a2.R));
    }
  }

  /** Check 2: the input alphabets are the same, and so are the output
      alphabets when both operands are transducers. */
  method CheckAlphabets<K(==), S(==,!new), A(==,!new), W(==,!new)>(a1: Automaton<K, S, A, W>, a2: Automaton<K, S, A, W>, r0: Report<Message<K, S, A, W>>)
    returns (r: Report<Message<K, S, A, W>>)
    requires WellBuilt(r0)
    requires Lookup(r0, Alphabet) == []
    ensures WellBuilt(r)
    ensures MessageSet(r, Alphabet) == AlphabetMessages(a1, a2)
    ensures forall d :: d != Alphabet ==> Lookup(r, d) == Lookup(r0, d)
    ensures r.title == r0.title && r.maxwidth == r0.maxwidth
  {
    ghost var inputs: set<Message<K, S, A, W>> :=
      if a1.Sigma != a2.Sigma then {InputAlphabetMismatch(a1.Sigma, a2.Sigma)} else {};
    r := r0;
    if a1.Sigma != a2.Sigma {
      r := Record(r, Alphabet, InputAlphabetMismatch(a1.Sigma, a2.Sigma));
    }
    assert MessageSet(r, Alphabet) == inputs;
    if a1.IsTransducer() && a2.IsTransducer() && a1.Omega.value != a2.Omega.value {
      r := Record(r, Alphabet, OutputAlphabetMismatch(a1.Omega.value, a2.Omega.value));
    }
  }

  /** Check 3: the state sets are the same, reported per direction. */
  method CheckStates<K(==), S(==,!new), A(==,!new), W(==,!new)>(a1: Automaton<K, S, A, W>, a2: Automaton<K, S, A, W>, r0: Report<Message<K, S, A, W>>)
    returns (r: Report<Message<K, S, A, W>>)
    requires WellBuilt(r0)
    requires Lookup(r0, States) == []
    ensures WellBuilt(r)
    ensures MessageSet(r, States) == StateMessages(a1, a2)
    ensures forall d :: d != States ==> Lookup(r, d) == Lookup(r0, d)
    ensures r.title == r0.title && r.maxwidth == r0.maxwidth
  {
    r := r0;
    var missingStates1 := a1.Q - a2.Q;
    var missingStates2 := a2.Q - a1.Q;
    if missingStates1 != {} {
      r := Record(r, States, StatesOnlyInFirst(missingStates1));
    }
    if missingStates2 != {} {
      r := Record(r, States, StatesOnlyInSecond(missingStates2));
    }
  }

  /** Check 4: the initial and final weights agree on every state of the
      first operand, looked up in both operands. */
  method CheckStateWeights<K(==), S(==,!new), A(==,!new), W(==,!new)>(a1: Automaton<K, S, A, W>, a2: Automaton<K, S, A, W>, r0: Report<Message<K, S, A, W>>)
    returns (r: Report<Message<K, S, A, W>>)
    requires WellBuilt(r0)
    requires Lookup(r0, StateWeights) == []
    ensures WellBuilt(r)
    ensures MessageSet(r, StateWeights) == StateWeightMessages(a1, a2, a1.Q)
    ensures forall d :: d != StateWeights ==> Lookup(r, d) == Lookup(r0, d)
    ensures r.title == r0.title && r.maxwidth == r0.maxwidth
  {
    r := r0;
    var todo := a1.Q;
    ghost var done: set<S> := {};
    while todo != {}
      invariant todo !! done && todo + done == a1.Q
      invariant WellBuilt(r)
      invariant MessageSet(r, StateWeights) == StateWeightMessages(a1, a2, done)
      invariant forall d :: d != StateWeights ==> Lookup(r, d) == Lookup(r0, d)
      invariant r.title == r0.title && r.maxwidth == r0.maxwidth
      decreases todo
    {
      var q :| q in todo;
      r := CheckStateWeight(a1, a2, r, done, q);
      todo := todo - {q};
      done := done + {q};
    }
  }

  /** One iteration of check 4: compares the initial, then the final,
      weight of the state `q`. */
  method CheckStateWeight<K(==), S(==,!new), A(==,!new), W(==,!new)>(a1: Automaton<K, S, A, W>, a2: Automaton<K, S, A, W>, r0: Report<Message<K, S, A, W>>, ghost done: set<S>, q: S)
    returns (r: Report<Message<K, S, A, W>>)
    requires WellBuilt(r0) && q !in done
    requires MessageSet(r0, StateWeights) == StateWeightMessages(a1, a2, done)
    ensures WellBuilt(r)
    ensures MessageSet(r, StateWeights) == StateWeightMessages(a1, a2, done + {q})
    ensures forall d :: d != StateWeights ==> Lookup(r, d) == Lookup(r0, d)
    ensures r.title == r0.title && r.maxwidth == r0.maxwidth
  {
    StateWeightMessagesStep(a1, a2, done, q);
    r := r0;
    if a1.lambda(q) != a2.lambda(q) {
      r := Record(r, StateWeights, InitialWeightMismatch(q, a1.lambda(q), a2.lambda(q)));
    }
    if a1.rho(q) != a2.rho(q) {
      r := Record(r, StateWeights, FinalWeightMismatch(q, a1.rho(q), a2.rho(q)));
    }
  }

  /** Check 5: the unweighted arc sets are the same, reported per
      direction. */
  method CheckArcs<K(==), S(==,!new), A(==,!new), W(==,!new)>(a1: Automaton<K, S, A, W>, a2: Automaton<K, S, A, W>, r0: Report<Message<K, S, A, W>>)
    returns (r: Report<Message<K, S, A, W>>)
    requires WellBuilt(r0)
    requires Lookup(r0, Arcs) == []
    ensures WellBuilt(r)
    ensures MessageSet(r, Arcs) == ArcMessages(a1, a2)
    ensures forall d :: d != Arcs ==> Lookup(r, d) == Lookup(r0, d)
    ensures r.title == r0.title && r.maxwidth == r0.maxwidth
  {
    r := r0;
    var arcs1 := ArcsOf(a1);
    var arcs2 := ArcsOf(a2);
    var missingArcs1 := Unweighted(arcs2) - Unweighted(arcs1);
    var missingArcs2 := Unweighted(arcs1) - Unweighted(arcs2);
    if missingArcs1 != {} {
      r := Record(r, Arcs, ArcsMissingInFirst(missingArcs1));
    }
    if missingArcs2 != {} {
      r := Record(r, Arcs, ArcsMissingInSecond(missingArcs2));
    }
  }

  /** Check 6: arcs with the same identity carry the same weight; one
      message per mismatch, in no particular order. */
  method CheckArcWeights<K(==), S(==,!new), A(==,!new), W(==,!new)>(a1: Automaton<K, S, A, W>, a2: Automaton<K, S, A, W>, r0: Report<Message<K, S, A, W>>)
    returns (r: Report<Message<K, S, A, W>>)
    requires WellBuilt(r0)
    requires Lookup(r0, ArcWeights) == []
    ensures WellBuilt(r)
    ensures MessageSet(r, ArcWeights) == ArcWeightMessages(a1, a2)
    ensures forall d :: d != ArcWeights ==> Lookup(r, d) == Lookup(r0, d)
    ensures r.title == r0.title && r.maxwidth == r0.maxwidth
  {
    r := RecordWeightMismatches(r0, ArcWeightMismatches(ArcsOf(a1), ArcsOf(a2)));
  }

  /** The loop of check 6: one message per mismatch, whatever order the
      mismatches are visited in. */
  method RecordWeightMismatches<K(==), S(==), A(==), W(==)>(r0: Report<Message<K, S, A, W>>, mismatches: set<WeightMismatch<S, A, W>>)
    returns (r: Report<Message<K, S, A, W>>)
    requires WellBuilt(r0)
    requires Lookup(r0, ArcWeights) == []
    ensures WellBuilt(r)
    ensures MessageSet(r, ArcWeights) == WeightMessages(mismatches)
    ensures forall d :: d != ArcWeights ==> Lookup(r, d) == Lookup(r0, d)
    ensures r.title == r0.title && r.maxwidth == r0.maxwidth
  {
    r := r0;
    var todo := mismatches;
    ghost var done: set<WeightMismatch<S, A, W>> := {};
    while todo != {}
      invariant todo !! done && todo + done == mismatches
      invariant WellBuilt(r)
      invariant MessageSet(r, ArcWeights) == WeightMessages(done)
      invariant forall d :: d != ArcWeights ==> Lookup(r, d) == Lookup(r0, d)
      invariant r.title == r0.title && r.maxwidth == r0.maxwidth
      decreases todo
    {
      var m :| m in todo;
      WeightMessagesStep<K, S, A, W>(done, m);
      r := Record(r, ArcWeights, ArcWeightMismatch(m.id, m.w1, m.w2));
      todo := todo - {m};
      done := done + {m};
    }
  }

  /** Recording one more mismatch adds exactly its message, which was not
      recorded before. */
  lemma WeightMessagesStep<K, S, A, W>(done: set<WeightMismatch<S, A, W>>, m: WeightMismatch<S, A, W>)
    requires m !in done
    ensures WeightMessages<K, S, A, W>(done + {m}) == WeightMessages(done) + {ArcWeightMismatch(m.id, m.w1, m.w2)}
    ensures ArcWeightMismatch(m.id, m.w1, m.w2) !in WeightMessages<K, S, A, W>(done)
  {
  }

  /** Adding one state to the states already checked adds exactly that
      state's messages. */
  lemma StateWeightMessagesStep<K, S(!new), A(!new), W(!new)>(a1: Automaton<K, S, A, W>, a2: Automaton<K, S, A, W>, done: set<S>, q: S)
    requires q !in done
    ensures StateWeightMessages(a1, a2, done + {q}) ==
      StateWeightMessages(a1, a2, done)
      + (if a1.lambda(q) != a2.lambda(q) then {InitialWeightMismatch(q, a1.lambda(q), a2.lambda(q))} else {})
      + (if a1.rho(q) != a2.rho(q) then {FinalWeightMismatch(q, a1.rho(q), a2.rho(q))} else {})
    ensures forall w1, w2 :: InitialWeightMismatch(q, w1, w2) !in StateWeightMessages(a1, a2, done)
    ensures forall w1, w2 :: FinalWeightMismatch(q, w1, w2) !in StateWeightMessages(a1, a2, done)
  {
  }

  /** The cross-product filter of `_arc_weight_mismatch` and the join keyed
      by arc identity compute the same mismatches. */
  lemma CrossProductIsKeyedJoin<K, S(!new), A(!new), W(!new)>(a1: Automaton<K, S, A, W>, a2: Automaton<K, S, A, W>)
    ensures ArcWeightMismatches(ArcsOf(a1), ArcsOf(a2)) == SharedIdentityMismatches(a1, a2)
  {
    forall m | m in SharedIdentityMismatches(a1, a2)
      ensures m in ArcWeightMismatches(ArcsOf(a1), ArcsOf(a2))
    {
      ArcOfEntry(a1, m.id);
      ArcOfEntry(a2, m.id);
      var x := Arc(m.id.src, m.id.ab, m.id.dst, m.w1);
      var y := Arc(m.id.src, m.id.ab, m.id.dst, m.w2);
      assert x.Id() == m.id && y.Id() == m.id;
    }
  }

  /** An identity both operands hold with different weights is a shared
      identity mismatch. */
  lemma MismatchOfEntry<K, S(!new), A(!new), W(!new)>(a1: Automaton<K, S, A, W>, a2: Automaton<K, S, A, W>, id: ArcId<S, A>)
    requires HasArc(a1, id) && HasArc(a2, id) && WeightOf(a1, id) != WeightOf(a2, id)
    ensures WeightMismatch(id, WeightOf(a1, id), WeightOf(a2, id)) in SharedIdentityMismatches(a1, a2)
  {
  }

  /** Two tables flatten to the same arcs exactly when they hold the same
      arc identities and no shared identity carries two weights. */
  lemma SameArcsIff<K, S(!new), A(!new), W(!new)>(a1: Automaton<K, S, A, W>, a2: Automaton<K, S, A, W>)
    ensures ArcsOf(a1) == ArcsOf(a2) <==> Ids(a1) == Ids(a2) && SharedIdentityMismatches(a1, a2) == {}
  {
    if Ids(a1) == Ids(a2) && SharedIdentityMismatches(a1, a2) == {} {
      forall id | id in Ids(a1)
        ensures WeightOf(a1, id) == WeightOf(a2, id)
      {
        if WeightOf(a1, id) != WeightOf(a2, id) {
          MismatchOfEntry(a1, a2, id);
        }
      }
      forall x
        ensures x in ArcsOf(a1) <==> x in ArcsOf(a2)
      {
        assert x.Id() in Ids(a1) <==> x.Id() in Ids(a2);
      }
    }
    if ArcsOf(a1) == ArcsOf(a2) {
      forall id | id in Ids(a1) + Ids(a2)
        ensures id in Ids(a1) && id in Ids(a2)
      {
        if id in Ids(a1) {
          ArcOfEntry(a1, id);
        } else {
          ArcOfEntry(a2, id);
        }
      }
      forall m | m in SharedIdentityMismatches(a1, a2)
        ensures false
      {
        ArcOfEntry(a1, m.id);
      }
    }
  }

  /** The semiring category is empty exactly when the semirings agree. */
  lemma NoSemiringMessagesIff<K, S(!new), A(!new), W(!new)>(a1: Automaton<K, S, A, W>, a2: Automaton<K, S, A, W>)
    ensures SemiringMessages(a1, a2) == {} <==> a1.R == a2.R
  {
    assert a1.R != a2.R ==> SemiringMismatch(a1.R, a2.R) in SemiringMessages(a1, a2);
  }

  /** The alphabet category is empty exactly when the input alphabets agree
      and, for two transducers, so do the output alphabets. */
  lemma NoAlphabetMessagesIff<K, S(!new), A(!new), W(!new)>(a1: Automaton<K, S, A, W>, a2: Automaton<K, S, A, W>)
    ensures AlphabetMessages(a1, a2) == {} <==>
      a1.Sigma == a2.Sigma && (a1.IsTransducer() && a2.IsTransducer() ==> a1.Omega == a2.Omega)
  {
    assert a1.Sigma != a2.Sigma ==> InputAlphabetMismatch(a1.Sigma, a2.Sigma) in AlphabetMessages(a1, a2);
    assert a1.IsTransducer() && a2.IsTransducer() && a1.Omega != a2.Omega ==>
      OutputAlphabetMismatch(a1.Omega.value, a2.Omega.value) in AlphabetMessages(a1, a2);
  }

  /** The states category is empty exactly when the state sets agree. */
  lemma NoStateMessagesIff<K, S(!new), A(!new), W(!new)>(a1: Automaton<K, S, A, W>, a2: Automaton<K, S, A, W>)
    ensures StateMessages(a1, a2) == {} <==> a1.Q == a2.Q
  {
    assert a1.Q - a2.Q != {} ==> StatesOnlyInFirst(a1.Q - a2.Q) in StateMessages(a1, a2);
    assert a2.Q - a1.Q != {} ==> StatesOnlyInSecond(a2.Q - a1.Q) in StateMessages(a1, a2);
  }

  /** No state-weight message is recorded exactly when both weight
      functions agree on every state of the first operand. */
  lemma StateWeightsAgree<K, S(!new), A(!new), W(!new)>(a1: Automaton<K, S, A, W>, a2: Automaton<K, S, A, W>)
    ensures StateWeightMessages(a1, a2, a1.Q) == {} <==>
      forall q :: q in a1.Q ==> a1.lambda(q) == a2.lambda(q) && a1.rho(q) == a2.rho(q)
  {
    forall q | q in a1.Q
      ensures a1.lambda(q) != a2.lambda(q) ==>
        InitialWeightMismatch(q, a1.lambda(q), a2.lambda(q)) in StateWeightMessages(a1, a2, a1.Q)
      ensures a1.rho(q) != a2.rho(q) ==>
        FinalWeightMismatch(q, a1.rho(q), a2.rho(q)) in StateWeightMessages(a1, a2, a1.Q)
    {
    }
  }

  /** The arcs and arc-weight categories are both empty exactly when the
      two automata have the same weighted arcs. */
  lemma NoArcMessagesIff<K, S(!new), A(!new), W(!new)>(a1: Automaton<K, S, A, W>, a2: Automaton<K, S, A, W>)
    ensures ArcMessages(a1, a2) == {} && ArcWeightMessages(a1, a2) == {} <==> ArcsOf(a1) == ArcsOf(a2)
  {
    UnweightedArcs(a1);
    UnweightedArcs(a2);
    CrossProductIsKeyedJoin(a1, a2);
    SameArcsIff(a1, a2);
    var u1, u2 := Ids(a1), Ids(a2);
    assert u2 - u1 != {} ==> ArcsMissingInFirst(u2 - u1) in ArcMessages(a1, a2);
    assert u1 - u2 != {} ==> ArcsMissingInSecond(u1 - u2) in ArcMessages(a1, a2);
    forall m | m in SharedIdentityMismatches(a1, a2)
      ensures ArcWeightMismatch(m.id, m.w1, m.w2) in ArcWeightMessages(a1, a2)
    {
    }
  }

  /** The comparison records nothing at all exactly when the two automata
      have the same structure. */
  lemma NoMismatchesIffSameStructure<K, S(!new), A(!new), W(!new)>(a1: Automaton<K, S, A, W>, a2: Automaton<K, S, A, W>)
    ensures (forall c :: Mismatches(a1, a2, c) == {}) <==> SameStructure(a1, a2)
  {
    CategoriesEmptyIff(a1, a2);
    CategoryMessagesIff(a1, a2);
  }

  /** Every category is empty exactly when each of the six per-category
      message sets is. */
  lemma CategoriesEmptyIff<K, S(!new), A(!new), W(!new)>(a1: Automaton<K, S, A, W>, a2: Automaton<K, S, A, W>)
    ensures (forall c :: Mismatches(a1, a2, c) == {}) <==>
      && SemiringMessages(a1, a2) == {}
      && AlphabetMessages(a1, a2) == {}
      && StateMessages(a1, a2) == {}
      && StateWeightMessages(a1, a2, a1.Q) == {}
      && ArcMessages(a1, a2) == {}
      && ArcWeightMessages(a1, a2) == {}
  {
    assert Mismatches(a1, a2, Semiring) == SemiringMessages(a1, a2);
    assert Mismatches(a1, a2, Alphabet) == AlphabetMessages(a1, a2);
    assert Mismatches(a1, a2, States) == StateMessages(a1, a2);
    assert Mismatches(a1, a2, StateWeights) == StateWeightMessages(a1, a2, a1.Q);
    assert Mismatches(a1, a2, Arcs) == ArcMessages(a1, a2);
    assert Mismatches(a1, a2, ArcWeights) == ArcWeightMessages(a1, a2);
  }

  /** The six per-category message sets are all empty exactly when the two
      automata have the same structure. */
  lemma CategoryMessagesIff<K, S(!new), A(!new), W(!new)>(a1: Automaton<K, S, A, W>, a2: Automaton<K, S, A, W>)
    ensures
      && SemiringMessages(a1, a2) == {}
      && AlphabetMessages(a1, a2) == {}
      && StateMessages(a1, a2) == {}
      && StateWeightMessages(a1, a2, a1.Q) == {}
      && ArcMessages(a1, a2) == {}
      && ArcWeightMessages(a1, a2) == {}
      <==> SameStructure(a1, a2)
  {
    NoSemiringMessagesIff(a1, a2);
    NoAlphabetMessagesIff(a1, a2);
    NoStateMessagesIff(a1, a2);
    StateWeightsAgree(a1, a2);
    NoArcMessagesIff(a1, a2);
  }
}
