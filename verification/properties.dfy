/** Properties of the structural comparison: what each category holds,
    reflexivity, symmetry of the verdict (and the exact mirror relation
    between the two reports behind it), isolation of a single difference,
    and the inequality of an acceptor and a transducer. */
module Properties {
  import opened Wrappers
  import opened Automata
  import opened Reports
  import opened Comparator

  /** The message the comparison of the swapped operands records in place
      of `m`: "first" and "second" trade places, and so do the two weights
      or components a message quotes. */
  function Mirror<K, S(==), A(==), W>(m: Message<K, S, A, W>): (n: Message<K, S, A, W>)
  {
    match m
    case SemiringMismatch(r1, r2) => SemiringMismatch(r2, r1)
    case InputAlphabetMismatch(s1, s2) => InputAlphabetMismatch(s2, s1)
    case OutputAlphabetMismatch(o1, o2) => OutputAlphabetMismatch(o2, o1)
    case StatesOnlyInFirst(qs) => StatesOnlyInSecond(qs)
    case StatesOnlyInSecond(qs) => StatesOnlyInFirst(qs)
    case InitialWeightMismatch(q, w1, w2) => InitialWeightMismatch(q, w2, w1)
    case FinalWeightMismatch(q, w1, w2) => FinalWeightMismatch(q, w2, w1)
    case ArcsMissingInFirst(ids) => ArcsMissingInSecond(ids)
    case ArcsMissingInSecond(ids) => ArcsMissingInFirst(ids)
    case ArcWeightMismatch(id, w1, w2) => ArcWeightMismatch(id, w2, w1)
  }

  function MirrorAll<K(==), S(==), A(==), W(==)>(ms: set<Message<K, S, A, W>>): (mirrored: set<Message<K, S, A, W>>)
  {
    set m | m in ms :: Mirror(m)
  }

  /** Comparing an automaton with itself records nothing, in any
      category. */
  lemma Reflexive<K, S(!new), A(!new), W(!new)>(a: Automaton<K, S, A, W>)
    ensures SameStructure(a, a)
    ensures forall c :: Mismatches(a, a, c) == {}
  {
    NoMismatchesIffSameStructure(a, a);
  }

  /** The documented structural equality does not depend on the order of
      the operands, although the weight check ranges over the first
      operand's states only. */
  lemma SameStructureSymmetric<K, S(!new), A(!new), W(!new)>(a1: Automaton<K, S, A, W>, a2: Automaton<K, S, A, W>)
    ensures SameStructure(a1, a2) <==> SameStructure(a2, a1)
  {
  }

  /** The verdict does not depend on the order of the operands: the
      comparison finds nothing one way exactly when it finds nothing the
      other way. */
  lemma VerdictSymmetric<K, S(!new), A(!new), W(!new)>(a1: Automaton<K, S, A, W>, a2: Automaton<K, S, A, W>)
    ensures (forall c :: Mismatches(a1, a2, c) == {}) <==> (forall c :: Mismatches(a2, a1, c) == {})
  {
    NoMismatchesIffSameStructure(a1, a2);
    NoMismatchesIffSameStructure(a2, a1);
    SameStructureSymmetric(a1, a2);
  }

  lemma MirrorAllPair<K, S, A, W>(m: Message<K, S, A, W>, n: Message<K, S, A, W>, b1: bool, b2: bool)
    ensures MirrorAll((if b1 then {m} else {}) + (if b2 then {n} else {}))
      == (if b1 then {Mirror(m)} else {}) + (if b2 then {Mirror(n)} else {})
  {
  }

  /** Swapping the operands mirrors the semiring, alphabet and states
      categories. */
  lemma MirroredComponents<K, S(!new), A(!new), W(!new)>(a1: Automaton<K, S, A, W>, a2: Automaton<K, S, A, W>)
    ensures Mismatches(a2, a1, Semiring) == MirrorAll(Mismatches(a1, a2, Semiring))
    ensures Mismatches(a2, a1, Alphabet) == MirrorAll(Mismatches(a1, a2, Alphabet))
    ensures Mismatches(a2, a1, States) == MirrorAll(Mismatches(a1, a2, States))
  {
    MirrorAllPair<K, S, A, W>(SemiringMismatch(a1.R, a2.R), SemiringMismatch(a1.R, a2.R), a1.R != a2.R, false);
    if a1.IsTransducer() && a2.IsTransducer() {
      MirrorAllPair<K, S, A, W>(InputAlphabetMismatch(a1.Sigma, a2.Sigma), OutputAlphabetMismatch(a1.Omega.value, a2.Omega.value),
        a1.Sigma != a2.Sigma, a1.Omega.value != a2.Omega.value);
    } else {
      MirrorAllPair<K, S, A, W>(InputAlphabetMismatch(a1.Sigma, a2.Sigma), InputAlphabetMismatch(a1.Sigma, a2.Sigma),
        a1.Sigma != a2.Sigma, false);
    }
    MirrorAllPair<K, S, A, W>(StatesOnlyInFirst(a1.Q - a2.Q), StatesOnlyInSecond(a2.Q - a1.Q), a1.Q - a2.Q != {}, a2.Q - a1.Q != {});
  }

  /** Swapping the operands mirrors the arcs category. */
  lemma MirroredArcs<K, S(!new), A(!new), W(!new)>(a1: Automaton<K, S, A, W>, a2: Automaton<K, S, A, W>)
    ensures Mismatches(a2, a1, Arcs) == MirrorAll(Mismatches(a1, a2, Arcs))
  {
    var u1, u2 := Unweighted(ArcsOf(a1)), Unweighted(ArcsOf(a2));
    MirrorAllPair<K, S, A, W>(ArcsMissingInFirst(u2 - u1), ArcsMissingInSecond(u1 - u2), u2 - u1 != {}, u1 - u2 != {});
  }

  /** The weight mismatches with the two weights exchanged. */
  function SwapAll<S(==), A(==), W(==)>(ms: set<WeightMismatch<S, A, W>>): (swapped: set<WeightMismatch<S, A, W>>)
  {
    set x | x in ms :: WeightMismatch(x.id, x.w2, x.w1)
  }

  /** The keyed join of the swapped operands finds the same identities
      with the weights exchanged. */
  lemma SharedSwap<K, S(!new), A(!new), W(!new)>(a1: Automaton<K, S, A, W>, a2: Automaton<K, S, A, W>)
    ensures SharedIdentityMismatches(a2, a1) == SwapAll(SharedIdentityMismatches(a1, a2))
  {
    forall x | x in SharedIdentityMismatches(a2, a1)
      ensures x in SwapAll(SharedIdentityMismatches(a1, a2))
    {
      assert WeightMismatch(x.id, x.w2, x.w1) in SharedIdentityMismatches(a1, a2);
    }
  }

  lemma MirrorWeightMessages<K, S, A, W>(ms: set<WeightMismatch<S, A, W>>)
    ensures MirrorAll(WeightMessages<K, S, A, W>(ms)) == WeightMessages(SwapAll(ms))
  {
    forall m | m in WeightMessages<K, S, A, W>(SwapAll(ms))
      ensures m in MirrorAll(WeightMessages<K, S, A, W>(ms))
    {
      var y :| y in SwapAll(ms) && m == ArcWeightMismatch(y.id, y.w1, y.w2);
      var x :| x in ms && y == WeightMismatch(x.id, x.w2, x.w1);
      var n: Message<K, S, A, W> := ArcWeightMismatch(x.id, x.w1, x.w2);
      assert n in WeightMessages<K, S, A, W>(ms) && Mirror(n) == m;
    }
  }

  /** Swapping the operands mirrors the arc-weight category. */
  lemma MirroredArcWeights<K, S(!new), A(!new), W(!new)>(a1: Automaton<K, S, A, W>, a2: Automaton<K, S, A, W>)
    ensures Mismatches(a2, a1, ArcWeights) == MirrorAll(Mismatches(a1, a2, ArcWeights))
  {
    CrossProductIsKeyedJoin(a1, a2);
    CrossProductIsKeyedJoin(a2, a1);
    SharedSwap(a1, a2);
    MirrorWeightMessages<K, S, A, W>(SharedIdentityMismatches(a1, a2));
  }

  /** With the same states the state weights mirror too, so the report of
      the swapped comparison is the mirror image of the original one. */
  lemma MirroredStateWeights<K, S(!new), A(!new), W(!new)>(a1: Automaton<K, S, A, W>, a2: Automaton<K, S, A, W>)
    requires a1.Q == a2.Q
    ensures Mismatches(a2, a1, StateWeights) == MirrorAll(Mismatches(a1, a2, StateWeights))
  {
    forall m | m in MirrorAll(StateWeightMessages(a1, a2, a1.Q))
      ensures m in StateWeightMessages(a2, a1, a2.Q)
    {
      var n :| n in StateWeightMessages(a1, a2, a1.Q) && m == Mirror(n);
    }
    forall m | m in StateWeightMessages(a2, a1, a2.Q)
      ensures m in MirrorAll(StateWeightMessages(a1, a2, a1.Q))
    {
      assert m == Mirror(Mirror(m));
    }
  }

  /** Two automata with the same states: swapping them mirrors the whole
      comparison, category by category. */
  lemma MirroredReport<K, S(!new), A(!new), W(!new)>(a1: Automaton<K, S, A, W>, a2: Automaton<K, S, A, W>)
    requires a1.Q == a2.Q
    ensures forall c :: Mismatches(a2, a1, c) == MirrorAll(Mismatches(a1, a2, c))
  {
    MirroredComponents(a1, a2);
    MirroredStateWeights(a1, a2);
    MirroredArcs(a1, a2);
    MirroredArcWeights(a1, a2);
    forall c
      ensures Mismatches(a2, a1, c) == MirrorAll(Mismatches(a1, a2, c))
    {
      match c
      case Semiring =>
      case Alphabet =>
      case States =>
      case StateWeights =>
      case Arcs =>
      case ArcWeights =>
    }
  }

  /** The `states` category: at most two messages, one per direction of
      the state-set difference, each present exactly when that difference
      is non-empty. */
  lemma StatesCategory<K, S(!new), A(!new), W(!new)>(a1: Automaton<K, S, A, W>, a2: Automaton<K, S, A, W>)
    ensures |Mismatches(a1, a2, States)| <= 2
    ensures forall m :: m in Mismatches(a1, a2, States) ==> m.StatesOnlyInFirst? || m.StatesOnlyInSecond?
    ensures forall qs :: StatesOnlyInFirst(qs) in Mismatches(a1, a2, States) <==> qs == a1.Q - a2.Q && qs != {}
    ensures forall qs :: StatesOnlyInSecond(qs) in Mismatches(a1, a2, States) <==> qs == a2.Q - a1.Q && qs != {}
  {
    StatesExact(a1, a2);
    AtMostTwo<Message<K, S, A, W>>(StatesOnlyInFirst(a1.Q - a2.Q), StatesOnlyInSecond(a2.Q - a1.Q), a1.Q - a2.Q != {}, a2.Q - a1.Q != {});
  }

  /** Each message of the `states` category quotes exactly its direction
      of the state-set difference. */
  lemma StatesExact<K, S(!new), A(!new), W(!new)>(a1: Automaton<K, S, A, W>, a2: Automaton<K, S, A, W>)
    ensures forall m :: m in Mismatches(a1, a2, States) ==> m.StatesOnlyInFirst? || m.StatesOnlyInSecond?
    ensures forall qs :: StatesOnlyInFirst(qs) in Mismatches(a1, a2, States) <==> qs == a1.Q - a2.Q && qs != {}
    ensures forall qs :: StatesOnlyInSecond(qs) in Mismatches(a1, a2, States) <==> qs == a2.Q - a1.Q && qs != {}
  {
  }

  /** The `alphabet` category: at most two messages; the input message
      quotes both input alphabets when they differ, and the output message
      appears only when both operands are transducers. */
  lemma AlphabetCategory<K, S(!new), A(!new), W(!new)>(a1: Automaton<K, S, A, W>, a2: Automaton<K, S, A, W>)
    ensures |Mismatches(a1, a2, Alphabet)| <= 2
    ensures forall m :: m in Mismatches(a1, a2, Alphabet) ==> m.InputAlphabetMismatch? || m.OutputAlphabetMismatch?
    ensures forall s1, s2 :: InputAlphabetMismatch(s1, s2) in Mismatches(a1, a2, Alphabet) <==>
      s1 == a1.Sigma && s2 == a2.Sigma && s1 != s2
    ensures forall o1, o2 :: OutputAlphabetMismatch(o1, o2) in Mismatches(a1, a2, Alphabet) <==>
      a1.Omega == Some(o1) && a2.Omega == Some(o2) && o1 != o2
  {
  }

  /** The `arcs` category is present exactly when the unweighted arc sets
      differ. */
  lemma ArcsCategoryPresence<K, S(!new), A(!new), W(!new)>(a1: Automaton<K, S, A, W>, a2: Automaton<K, S, A, W>)
    ensures Mismatches(a1, a2, Arcs) != {} <==> Unweighted(ArcsOf(a1)) != Unweighted(ArcsOf(a2))
  {
    var u1, u2 := Unweighted(ArcsOf(a1)), Unweighted(ArcsOf(a2));
    assert u2 - u1 != {} ==> ArcsMissingInFirst(u2 - u1) in ArcMessages(a1, a2);
    assert u1 - u2 != {} ==> ArcsMissingInSecond(u1 - u2) in ArcMessages(a1, a2);
  }

  /** The `arcs` category holds at most two messages: "missing in the
      first" is exactly the identities of the second that the first lacks,
      and "missing in the second" the converse. */
  lemma ArcsCategoryContents<K, S(!new), A(!new), W(!new)>(a1: Automaton<K, S, A, W>, a2: Automaton<K, S, A, W>)
    ensures |Mismatches(a1, a2, Arcs)| <= 2
    ensures forall m :: m in Mismatches(a1, a2, Arcs) ==> m.ArcsMissingInFirst? || m.ArcsMissingInSecond?
    ensures forall ids :: ArcsMissingInFirst(ids) in Mismatches(a1, a2, Arcs) <==>
      ids == Ids(a2) - Ids(a1) && ids != {}
    ensures forall ids :: ArcsMissingInSecond(ids) in Mismatches(a1, a2, Arcs) <==>
      ids == Ids(a1) - Ids(a2) && ids != {}
  {
    ArcsMissingExact(a1, a2);
    var u1, u2 := Unweighted(ArcsOf(a1)), Unweighted(ArcsOf(a2));
    AtMostTwo<Message<K, S, A, W>>(ArcsMissingInFirst(u2 - u1), ArcsMissingInSecond(u1 - u2), u2 - u1 != {}, u1 - u2 != {});
  }

  lemma ArcsMissingExact<K, S(!new), A(!new), W(!new)>(a1: Automaton<K, S, A, W>, a2: Automaton<K, S, A, W>)
    ensures forall m :: m in Mismatches(a1, a2, Arcs) ==> m.ArcsMissingInFirst? || m.ArcsMissingInSecond?
    ensures forall ids :: ArcsMissingInFirst(ids) in Mismatches(a1, a2, Arcs) <==>
      ids == Ids(a2) - Ids(a1) && ids != {}
    ensures forall ids :: ArcsMissingInSecond(ids) in Mismatches(a1, a2, Arcs) <==>
      ids == Ids(a1) - Ids(a2) && ids != {}
  {
    UnweightedArcs(a1);
    UnweightedArcs(a2);
  }

  /** A category built from two optional messages holds at most two. */
  lemma AtMostTwo<T>(m: T, n: T, b1: bool, b2: bool)
    ensures |(if b1 then {m} else {}) + (if b2 then {n} else {})| <= 2
  {
  }

  /** The `arc_weights` category: one message exactly for each arc identity
      both operands hold with different weights, quoting both weights; so
      at most one message per identity. */
  lemma ArcWeightsCategory<K, S(!new), A(!new), W(!new)>(a1: Automaton<K, S, A, W>, a2: Automaton<K, S, A, W>)
    ensures forall m :: m in Mismatches(a1, a2, ArcWeights) ==> m.ArcWeightMismatch?
    ensures forall id, w1, w2 :: ArcWeightMismatch(id, w1, w2) in Mismatches(a1, a2, ArcWeights) <==>
      HasArc(a1, id) && HasArc(a2, id) && w1 == WeightOf(a1, id) && w2 == WeightOf(a2, id) && w1 != w2
    ensures forall m, n :: m in Mismatches(a1, a2, ArcWeights) && n in Mismatches(a1, a2, ArcWeights) && m.id == n.id ==> m == n
  {
    CrossProductIsKeyedJoin(a1, a2);
    forall id, w1, w2 | HasArc(a1, id) && HasArc(a2, id) && w1 == WeightOf(a1, id) && w2 == WeightOf(a2, id) && w1 != w2
      ensures ArcWeightMismatch(id, w1, w2) in Mismatches(a1, a2, ArcWeights)
    {
      assert WeightMismatch(id, w1, w2) in SharedIdentityMismatches(a1, a2);
    }
  }

  /** Two automata that differ only in the final weight of one of the
      first operand's states are reported as differing in exactly that
      weight and nothing else. */
  lemma OnlyFinalWeightDiffers<K, S(!new), A(!new), W(!new)>(a1: Automaton<K, S, A, W>, a2: Automaton<K, S, A, W>, q: S)
    requires a1.R == a2.R && a1.Sigma == a2.Sigma && a1.Omega == a2.Omega && a1.Q == a2.Q
    requires a1.lambda == a2.lambda && a1.delta == a2.delta
    requires q in a1.Q && a1.rho(q) != a2.rho(q)
    requires forall p :: p != q ==> a1.rho(p) == a2.rho(p)
    ensures forall c :: c != StateWeights ==> Mismatches(a1, a2, c) == {}
    ensures Mismatches(a1, a2, StateWeights) == {FinalWeightMismatch(q, a1.rho(q), a2.rho(q))}
  {
    assert ArcsOf(a1) == ArcsOf(a2);
    ArcWeightsCategory(a1, a2);
    forall c | c != StateWeights
      ensures Mismatches(a1, a2, c) == {}
    {
      if c == ArcWeights {
        assert forall m :: m !in Mismatches(a1, a2, ArcWeights);
      }
    }
  }

  /** An acceptor and a transducer with at least one arc between them are
      never structurally equal: their arcs carry different kinds of
      labels. */
  lemma AcceptorNeverEqualsTransducer<K, S(!new), A(!new), W(!new)>(a1: Automaton<K, S, A, W>, a2: Automaton<K, S, A, W>)
    requires LabelsMatchKind(a1) && LabelsMatchKind(a2)
    requires !a1.IsTransducer() && a2.IsTransducer()
    requires Ids(a1) != {} || Ids(a2) != {}
    ensures Ids(a1) !! Ids(a2)
    ensures Mismatches(a1, a2, Arcs) != {}
    ensures !SameStructure(a1, a2)
  {
    ArcsCategoryPresence(a1, a2);
    UnweightedArcs(a1);
    UnweightedArcs(a2);
  }

  /** The arc condition above cannot be dropped: an acceptor and a
      transducer without arcs that agree on semiring, input alphabet,
      states and state weights are structurally equal, because the output
      alphabet is compared only between two transducers. */
  lemma ArcFreeAcceptorEqualsTransducer<K, S(!new), A(!new), W(!new)>(a1: Automaton<K, S, A, W>, a2: Automaton<K, S, A, W>)
    requires !a1.IsTransducer() && a2.IsTransducer()
    requires a1.R == a2.R && a1.Sigma == a2.Sigma && a1.Q == a2.Q
    requires a1.lambda == a2.lambda && a1.rho == a2.rho
    requires a1.delta == map[] && a2.delta == map[]
    ensures LabelsMatchKind(a1) && LabelsMatchKind(a2)
    ensures forall c :: Mismatches(a1, a2, c) == {}
    ensures SameStructure(a1, a2)
  {
    NoArcsIffEmptyRows(a1);
    NoArcsIffEmptyRows(a2);
    NoMismatchesIffSameStructure(a1, a2);
  }

  /** Two reports that each record exactly the comparison's messages are
      equal reports, whatever order their loops visited the states and
      arcs in and whatever their titles. */
  lemma RunsAgree<K, S(!new), A(!new), W(!new)>(a1: Automaton<K, S, A, W>, a2: Automaton<K, S, A, W>, r: Report<Message<K, S, A, W>>, r': Report<Message<K, S, A, W>>)
    requires WellBuilt(r) && WellBuilt(r')
    requires forall c :: MessageSet(r, c) == Mismatches(a1, a2, c)
    requires forall c :: MessageSet(r', c) == Mismatches(a1, a2, c)
    ensures Eq(r, ReportValue(r'))
  {
    EqIffSameMessageSets(r, r');
  }
}
