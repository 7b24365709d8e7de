/** The four automata of tests/test_fsa_structural_equality.py and what
    the comparison reports about them.

    States are integers, symbols are characters or epsilon, and weights are
    Boolean or real values. An initial or final weight that the test does
    not set is the semiring's zero. The alphabets are taken to be the
    symbols on the arcs (the automaton classes that build them are not part
    of this model), so nothing is claimed about the alphabet category. */
module Scenarios {
  import opened Wrappers
  import opened Automata
  import opened Reports
  import opened Comparator
  import opened Properties

  datatype SemiringId = Boolean | Real

  datatype Symbol = Eps | Chr(c: char)

  datatype Weight = BoolW(b: bool) | RealW(x: real)

  /** The automata of the tests, acceptors and transducers alike. */
  type TestAutomaton = Automaton<SemiringId, int, Symbol, Weight>

  const T: Weight := BoolW(true)
  const F: Weight := BoolW(false)

  /** An acceptor arc label. */
  function L(c: char): (l: Label<Symbol>)
  {
    Sym(Chr(c))
  }

  /** `_make_fsa1`: states 0, 1, 2; initial 0, final 2. */
  function Fsa1(): (a: TestAutomaton)
  {
    Automaton(
      Boolean,
      {Eps, Chr('a'), Chr('b'), Chr('c')},
      None,
      {0, 1, 2},
      q => if q == 0 then T else F,
      q => if q == 2 then T else F,
      map[
        0 := map[Sym(Eps) := map[0 := T], L('b') := map[0 := T], L('c') := map[0 := T], L('a') := map[2 := T]],
        2 := map[L('a') := map[0 := T], L('c') := map[1 := T]],
        1 := map[L('a') := map[0 := T], Sym(Eps) := map[2 := T], L('b') := map[2 := T], L('c') := map[2 := T]]])
  }

  /** `_make_fsa2`: adds state 3 and the arc 1 -d-> 3, drops 0 -b-> 0, and
      gives 2 -a-> 0 the weight false. */
  function Fsa2(): (a: TestAutomaton)
  {
    Automaton(
      Boolean,
      {Eps, Chr('a'), Chr('b'), Chr('c'), Chr('d')},
      None,
      {0, 1, 2, 3},
      q => if q == 0 then T else F,
      q => if q == 2 then T else F,
      map[
        0 := map[Sym(Eps) := map[0 := T], L('c') := map[0 := T], L('a') := map[2 := T]],
        2 := map[L('a') := map[0 := F], L('c') := map[1 := T]],
        1 := map[L('a') := map[0 := T], Sym(Eps) := map[2 := T], L('b') := map[2 := T], L('c') := map[2 := T], L('d') := map[3 := T]]])
  }

  /** `_make_fst1`: states 0, 1; initial weight 29 at 0, final weight 2 at
      1. */
  function Fst1(): (a: TestAutomaton)
  {
    Automaton(
      Real,
      {Eps, Chr('a'), Chr('b')},
      Some({Eps, Chr('a'), Chr('b')}),
      {0, 1},
      q => if q == 0 then RealW(29.0) else RealW(0.0),
      q => if q == 1 then RealW(2.0) else RealW(0.0),
      map[
        0 := map[Pair(Eps, Chr('b')) := map[0 := RealW(0.0)], Pair(Chr('b'), Eps) := map[1 := RealW(35.0)]],
        1 := map[Pair(Chr('b'), Chr('b')) := map[0 := RealW(43.0)], Pair(Chr('a'), Chr('b')) := map[0 := RealW(25.0)],
                 Pair(Eps, Chr('a')) := map[1 := RealW(25.0)]]])
  }

  /** `_make_fst2`: adds state 2, changes both state weights, one arc
      weight and one output label, and adds two arcs. */
  function Fst2(): (a: TestAutomaton)
  {
    Automaton(
      Real,
      {Eps, Chr('a'), Chr('b')},
      Some({Eps, Chr('a'), Chr('b')}),
      {0, 1, 2},
      q => if q == 0 then RealW(8.0) else RealW(0.0),
      q => if q == 1 then RealW(2.5) else RealW(0.0),
      map[
        0 := map[Pair(Eps, Chr('b')) := map[0 := RealW(0.0)], Pair(Chr('b'), Eps) := map[1 := RealW(35.0)],
                 Pair(Chr('b'), Chr('b')) := map[1 := RealW(35.0)]],
        1 := map[Pair(Chr('b'), Chr('b')) := map[0 := RealW(43.1)], Pair(Chr('a'), Chr('a')) := map[0 := RealW(25.0)],
                 Pair(Eps, Chr('a')) := map[1 := RealW(25.0)]],
        2 := map[Pair(Eps, Eps) := map[2 := RealW(0.0)]]])
  }

  /** The arc identities of the first acceptor. */
  lemma Fsa1Ids()
    ensures Ids(Fsa1()) == {
      ArcId(0, Sym(Eps), 0), ArcId(0, L('b'), 0), ArcId(0, L('c'), 0), ArcId(0, L('a'), 2),
      ArcId(2, L('a'), 0), ArcId(2, L('c'), 1),
      ArcId(1, L('a'), 0), ArcId(1, Sym(Eps), 2), ArcId(1, L('b'), 2), ArcId(1, L('c'), 2)}
  {
  }

  /** The arc identities of the second acceptor. */
  lemma Fsa2Ids()
    ensures Ids(Fsa2()) == {
      ArcId(0, Sym(Eps), 0), ArcId(0, L('c'), 0), ArcId(0, L('a'), 2),
      ArcId(2, L('a'), 0), ArcId(2, L('c'), 1),
      ArcId(1, L('a'), 0), ArcId(1, Sym(Eps), 2), ArcId(1, L('b'), 2), ArcId(1, L('c'), 2), ArcId(1, L('d'), 3)}
  {
  }

  /** fsa1 against fsa2: state 3 exists only in the second. */
  lemma Fsa1Fsa2States()
    ensures Mismatches(Fsa1(), Fsa2(), States) == {StatesOnlyInSecond({3})}
  {
    assert Fsa2().Q - Fsa1().Q == {3};
  }

  /** fsa1 against fsa2: the initial and final weights agree. */
  lemma Fsa1Fsa2StateWeights()
    ensures Mismatches(Fsa1(), Fsa2(), StateWeights) == {}
  {
    StateWeightsAgree(Fsa1(), Fsa2());
  }

  /** fsa1 against fsa2: 1 -d-> 3 is missing in the first and 0 -b-> 0 in
      the second. */
  lemma Fsa1Fsa2Arcs()
    ensures Mismatches(Fsa1(), Fsa2(), Arcs) ==
      {ArcsMissingInFirst({ArcId(1, L('d'), 3)}), ArcsMissingInSecond({ArcId(0, L('b'), 0)})}
  {
    ArcsMissingExact(Fsa1(), Fsa2());
    OnlyInFsa2();
    OnlyInFsa1();
  }

  /** The arc identities only the second acceptor holds. */
  lemma OnlyInFsa2()
    ensures Ids(Fsa2()) - Ids(Fsa1()) == {ArcId(1, L('d'), 3)}
  {
    Fsa1Ids();
    Fsa2Ids();
    forall id | id in Ids(Fsa2()) - Ids(Fsa1())
      ensures id == ArcId(1, L('d'), 3)
    {
    }
  }

  /** The arc identities only the first acceptor holds. */
  lemma OnlyInFsa1()
    ensures Ids(Fsa1()) - Ids(Fsa2()) == {ArcId(0, L('b'), 0)}
  {
    Fsa1Ids();
    Fsa2Ids();
    forall id | id in Ids(Fsa1()) - Ids(Fsa2())
      ensures id == ArcId(0, L('b'), 0)
    {
    }
  }

  /** fsa1 against fsa2: the one shared arc whose weight differs is
      2 -a-> 0, true in the first and false in the second. */
  lemma Fsa1Fsa2ArcWeights()
    ensures Mismatches(Fsa1(), Fsa2(), ArcWeights) == {ArcWeightMismatch(ArcId(2, L('a'), 0), T, F)}
  {
    Fsa1Weights();
    Fsa2Weights();
    ArcWeightsCategory(Fsa1(), Fsa2());
    assert HasArc(Fsa1(), ArcId(2, L('a'), 0)) && HasArc(Fsa2(), ArcId(2, L('a'), 0));
  }

  /** Every arc of fsa1 has weight true. */
  lemma Fsa1Weights()
    ensures forall id :: HasArc(Fsa1(), id) ==> WeightOf(Fsa1(), id) == T
  {
  }

  /** Every arc of fsa2 but 2 -a-> 0 has weight true. */
  lemma Fsa2Weights()
    ensures forall id :: HasArc(Fsa2(), id) ==> (WeightOf(Fsa2(), id) == T <==> id != ArcId(2, L('a'), 0))
  {
  }

  /** fsa1 and fsa2 are not structurally equal, although their semirings
      agree. */
  lemma Fsa1Fsa2NotEqual()
    ensures Mismatches(Fsa1(), Fsa2(), Semiring) == {}
    ensures !SameStructure(Fsa1(), Fsa2())
  {
    Fsa1Fsa2States();
    NoMismatchesIffSameStructure(Fsa1(), Fsa2());
  }

  /** The arc identities of the first transducer. */
  lemma Fst1Ids()
    ensures Ids(Fst1()) == {
      ArcId(0, Pair(Eps, Chr('b')), 0), ArcId(0, Pair(Chr('b'), Eps), 1),
      ArcId(1, Pair(Chr('b'), Chr('b')), 0), ArcId(1, Pair(Chr('a'), Chr('b')), 0), ArcId(1, Pair(Eps, Chr('a')), 1)}
  {
  }

  /** The arc identities of the second transducer. */
  lemma Fst2Ids()
    ensures Ids(Fst2()) == {
      ArcId(0, Pair(Eps, Chr('b')), 0), ArcId(0, Pair(Chr('b'), Eps), 1), ArcId(0, Pair(Chr('b'), Chr('b')), 1),
      ArcId(1, Pair(Chr('b'), Chr('b')), 0), ArcId(1, Pair(Chr('a'), Chr('a')), 0), ArcId(1, Pair(Eps, Chr('a')), 1),
      ArcId(2, Pair(Eps, Eps), 2)}
  {
  }

  /** fst1 against fst2: state 2 exists only in the second. */
  lemma Fst1Fst2States()
    ensures Mismatches(Fst1(), Fst2(), States) == {StatesOnlyInSecond({2})}
  {
    assert Fst2().Q - Fst1().Q == {2};
  }

  /** fst1 against fst2: the initial weight of state 0 and the final weight
      of state 1 differ. */
  lemma Fst1Fst2StateWeights()
    ensures Mismatches(Fst1(), Fst2(), StateWeights) ==
      {InitialWeightMismatch(0, RealW(29.0), RealW(8.0)), FinalWeightMismatch(1, RealW(2.0), RealW(2.5))}
  {
    var ms := Mismatches(Fst1(), Fst2(), StateWeights);
    assert InitialWeightMismatch(0, RealW(29.0), RealW(8.0)) in ms;
    assert FinalWeightMismatch(1, RealW(2.0), RealW(2.5)) in ms;
  }

  /** The arc identities only the second transducer holds. */
  lemma OnlyInFst2()
    ensures Ids(Fst2()) - Ids(Fst1()) ==
      {ArcId(1, Pair(Chr('a'), Chr('a')), 0), ArcId(0, Pair(Chr('b'), Chr('b')), 1), ArcId(2, Pair(Eps, Eps), 2)}
  {
    Fst1Ids();
    Fst2Ids();
  }

  /** The arc identities only the first transducer holds. */
  lemma OnlyInFst1()
    ensures Ids(Fst1()) - Ids(Fst2()) == {ArcId(1, Pair(Chr('a'), Chr('b')), 0)}
  {
    Fst1Ids();
    Fst2Ids();
    forall id | id in Ids(Fst1()) - Ids(Fst2())
      ensures id == ArcId(1, Pair(Chr('a'), Chr('b')), 0)
    {
    }
  }

  /** fst1 against fst2: three arcs are missing in the first (among them
      the relabelled 1 -a:a-> 0) and one in the second. */
  lemma Fst1Fst2Arcs()
    ensures Mismatches(Fst1(), Fst2(), Arcs) == {
      ArcsMissingInFirst({ArcId(1, Pair(Chr('a'), Chr('a')), 0), ArcId(0, Pair(Chr('b'), Chr('b')), 1), ArcId(2, Pair(Eps, Eps), 2)}),
      ArcsMissingInSecond({ArcId(1, Pair(Chr('a'), Chr('b')), 0)})}
  {
    ArcsMissingExact(Fst1(), Fst2());
    OnlyInFst2();
    OnlyInFst1();
  }

  /** fst1 against fst2: the one shared arc whose weight differs is
      1 -b:b-> 0, 43.0 in the first and 43.1 in the second. */
  lemma Fst1Fst2ArcWeights()
    ensures Mismatches(Fst1(), Fst2(), ArcWeights) ==
      {ArcWeightMismatch(ArcId(1, Pair(Chr('b'), Chr('b')), 0), RealW(43.0), RealW(43.1))}
  {
    Fst1Fst2SharedWeights();
    ArcWeightsCategory(Fst1(), Fst2());
    assert HasArc(Fst1(), ArcId(1, Pair(Chr('b'), Chr('b')), 0)) && HasArc(Fst2(), ArcId(1, Pair(Chr('b'), Chr('b')), 0));
  }

  /** The arcs fst1 and fst2 share carry the same weight, except
      1 -b:b-> 0. */
  lemma Fst1Fst2SharedWeights()
    ensures forall id :: HasArc(Fst1(), id) && HasArc(Fst2(), id) ==>
      (WeightOf(Fst1(), id) == WeightOf(Fst2(), id) <==> id != ArcId(1, Pair(Chr('b'), Chr('b')), 0))
  {
  }

  /** fst1 and fst2 are not structurally equal. */
  lemma Fst1Fst2NotEqual()
    ensures !SameStructure(Fst1(), Fst2())
  {
    Fst1Fst2States();
    NoMismatchesIffSameStructure(Fst1(), Fst2());
  }

  /** The acceptor fsa1 and the transducer fst1 are not structurally equal:
      their semirings already differ, and so do the kinds of their arc
      labels. */
  lemma Fsa1Fst1NotEqual()
    ensures Mismatches(Fsa1(), Fst1(), Semiring) == {SemiringMismatch(Boolean, Real)}
    ensures !SameStructure(Fsa1(), Fst1())
  {
  }

  /** An acceptor with the single state 0 and no arcs. */
  function OneState(): (a: TestAutomaton)
  {
    Automaton(Boolean, {}, None, {0}, q => F, q => F, map[])
  }

  /** `OneState` plus a state 1 with final weight true. */
  function TwoStates(): (a: TestAutomaton)
  {
    Automaton(Boolean, {}, None, {0, 1}, q => F, q => if q == 1 then T else F, map[])
  }

  /** The state-weight check looks only at the first operand's states: a
      final weight on a state only the second operand has is reported when
      that operand comes first, and not otherwise. The verdict is the same
      both ways, since the states check already tells them apart. */
  lemma StateWeightsOneSided()
    ensures Mismatches(OneState(), TwoStates(), StateWeights) == {}
    ensures Mismatches(TwoStates(), OneState(), StateWeights) == {FinalWeightMismatch(1, T, F)}
    ensures Mismatches(OneState(), TwoStates(), States) == {StatesOnlyInSecond({1})}
  {
    StateWeightsAgree(OneState(), TwoStates());
    assert FinalWeightMismatch(1, T, F) in Mismatches(TwoStates(), OneState(), StateWeights);
    assert TwoStates().Q - OneState().Q == {1};
  }
}
