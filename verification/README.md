# Structural equality of weighted automata

A Dafny model of rayuela's structural-equality checker. The checker lives in
`rayuela/fsa/fsa_testing.py` and decides whether two weighted acceptors
(WFSAs) or transducers (WFSTs) have the same representation:

- the same semiring and input alphabet, and the same output alphabet when both
  operands are transducers;
- the same states;
- initial and final weights that agree;
- the same arcs, carrying the same weights.

This is a stricter notion than "accept the same weighted language".

The model has five modules:

- `Automata` (automata.dfy): the parts of an automaton that the comparison
  inspects. The transition table is nested, source → label →
  target → weight, as the source's `δ` is. `ArcsOf` flattens it into
  `(i, ab, j, w)` arcs (`_arcs`). `Unweighted` drops the weights
  (`_unweighted`).
- `Reports` (reports.dfy): the report value (`_FSAStructuralEqualityReport`).
  It is a mapping from mismatch category to the list of messages recorded
  under it, plus a title and a width. It provides the verdict
  `StructurallyEqual` (`structurally_equal`) and the order-insensitive equality
  `Eq` (`__eq__`). `Record` is the only way the comparison adds a message; like
  `defaultdict(list).append`, it creates a category together with its first
  message.
- `Comparator` (comparator.dfy): `fsa_structural_equality_report`, modelled as
  the method `StructuralEqualityReport`.
  - It runs the six checks in the source's order. Each check fills its own
    category, and none short-circuits.
  - The two loops (over the first operand's states, and over the arc-weight
    mismatches) visit their sets in an unspecified order, as Python's set
    iteration does.
  - `Mismatches(a1, a2, c)` states, category by category, the set of messages
    the comparison must record. `SameStructure` is the docstring's definition
    of structural equality.
  - The method is proved to record exactly `Mismatches`, each message once,
    and its verdict is proved to be `SameStructure`. `IsStructurallyEqual` is
    `fsa_structurally_equal`.
- `Properties` (properties.dfy): the other properties:
  - what each category can hold;
  - reflexivity;
  - symmetry of the verdict, and the exact mirror relation between the report
    for `(a1, a2)` and the one for `(a2, a1)`;
  - that a single differing weight shows up as exactly one message;
  - that an acceptor never equals a transducer when either has an arc, and
    that without arcs the two can be equal;
  - that any two runs of the comparison give equal reports.
- `Scenarios` (scenarios.dfy): the four automata of
  `tests/test_fsa_structural_equality.py`, and what the comparison reports
  about them.

States, symbols, weights and the semiring identity are type parameters that
the comparison only tests for equality. The initial and final weights `λ` and
`ρ` are total functions. The source indexes both operands' weight
functions at every state of the first operand. That includes states whose
weight was never set, and, for the second operand, states it does not have.
The model assumes that every such lookup returns some weight rather than
failing. The weight functions are arbitrary; the scenarios choose the
semiring's zero for unset states. This is an assumption about the
automaton classes, which are not part of this model.

Messages are the datatype `Comparator.Message`, whose constructors say what
each message reports: `StatesOnlyInFirst`, `ArcWeightMismatch` and so on.
The formatted text is not modelled.

The state-weight check ranges over the first operand's states only
(fsa_testing.py:146). The model follows the code here, rather than comparing
on the intersection of the two state sets. As a result:

- The report for `(a1, a2)` is the mirror image of the one for `(a2, a1)` when
  the state sets agree (`Properties.MirroredReport`).
- When the state sets differ, the state-weight category can differ between the
  two orders (`Scenarios.StateWeightsOneSided`).
- The verdict is symmetric either way (`Properties.VerdictSymmetric`).

## Model

| member | source | states |
|---|---|---|
| Automata.ArcsOf | rayuela/fsa/fsa_testing.py:73-86 | `(i, ab, j, w)` is a flattened arc exactly when the table maps `i`, `ab`, `j` to `w` |
| Automata.Ids | rayuela/fsa/fsa_testing.py:81-86 | an arc identity is listed exactly when the table holds a weight for it |
| Automata.Unweighted | rayuela/fsa/fsa_testing.py:164-165 | `_unweighted`: the identities of a set of arcs; `Automata.UnweightedArcs` characterises it on the flattened arcs |
| Automata.UnweightedArcs | rayuela/fsa/fsa_testing.py:164-165 | dropping the weights of the flattened arcs gives exactly the table's arc identities |
| Automata.ArcsFunctional | rayuela/fsa/fsa_testing.py:81-86 | two flattened arcs with the same `(i, ab, j)` are the same arc: one weight per identity |
| Automata.NoArcsIffEmptyRows | rayuela/fsa/fsa_testing.py:81-86 | no arcs exactly when every innermost row of the table is empty; an empty table gives no arcs |
| Reports.NewReport | rayuela/fsa/fsa_testing.py:18-31 | a fresh report has no categories, the given title and width 80 |
| Reports.Append | rayuela/fsa/fsa_testing.py:114-118 | appending adds the message at the end of its category, creates the category if absent, and leaves every other category alone |
| Reports.Record | rayuela/fsa/fsa_testing.py:114-118 | recording a new message adds exactly it to its category, keeps the report free of empty categories and repeats, and changes no other category |
| Reports.KeyIffMessages | rayuela/fsa/fsa_testing.py:114-186 | a category is present exactly when it holds a message |
| Reports.StructurallyEqual | rayuela/fsa/fsa_testing.py:33-38 | `structurally_equal`: no category is present; `Reports.VerdictIffNoMessages` characterises it by the recorded messages |
| Reports.VerdictIffNoMessages | rayuela/fsa/fsa_testing.py:33-38 | `structurally_equal` holds exactly when no category is present, and exactly when no category holds a message |
| Reports.Eq | rayuela/fsa/fsa_testing.py:62-70 | `__eq__`: false against a non-report, otherwise equal key sets and equal message sets per key; `Reports.EqIffSameMessageSets`, `Reports.EqIgnoresOrder` and `Reports.EqIsEquivalence` characterise it |
| Reports.EqIffSameMessageSets | rayuela/fsa/fsa_testing.py:62-70 | two reports are equal exactly when every category holds the same set of messages in both |
| Reports.EqIgnoresOrder | rayuela/fsa/fsa_testing.py:62-70 | reports holding the same messages in different orders are equal |
| Reports.EqIsEquivalence | rayuela/fsa/fsa_testing.py:62-70 | report equality is reflexive, symmetric and transitive, and a report never equals a non-report |
| Reports.CountIsDistinct | rayuela/fsa/fsa_testing.py:114-186 | in a report without repeats, each category's list is as long as its set of messages |
| Comparator.StructuralEqualityReport | rayuela/fsa/fsa_testing.py:89-188 | records, under every category, exactly the messages `Mismatches` gives, each once; keeps the title and width 80; the verdict holds exactly when the automata have the same structure |
| Comparator.IsStructurallyEqual | rayuela/fsa/fsa_testing.py:191-203 | true exactly when the automata have the same structure, and exactly when no category has a message |
| Comparator.RunChecks | rayuela/fsa/fsa_testing.py:114-188 | the six checks together fill every category with exactly its messages |
| Comparator.CheckComponents | rayuela/fsa/fsa_testing.py:116-142 | checks 1-3 fill the semiring, alphabet and states categories and touch no other |
| Comparator.CheckWeightsAndArcs | rayuela/fsa/fsa_testing.py:144-186 | checks 4-6 fill the state-weight, arcs and arc-weight categories and touch no other |
| Comparator.CheckSemiring | rayuela/fsa/fsa_testing.py:116-118 | one semiring message quoting both semirings, exactly when they differ |
| Comparator.CheckAlphabets | rayuela/fsa/fsa_testing.py:120-128 | an input-alphabet message when the input alphabets differ; an output-alphabet message when both operands are transducers and their output alphabets differ |
| Comparator.CheckStates | rayuela/fsa/fsa_testing.py:130-142 | one message per non-empty direction of the state-set difference, quoting that difference |
| Comparator.CheckStateWeights | rayuela/fsa/fsa_testing.py:144-154 | for every state of the first operand, one message per weight function on which the operands disagree there, in any visiting order |
| Comparator.CheckStateWeight | rayuela/fsa/fsa_testing.py:146-154 | one iteration adds exactly the initial- and final-weight messages of its state |
| Comparator.CheckArcs | rayuela/fsa/fsa_testing.py:156-172 | "missing in the first" quotes the identities only the second holds, and "missing in the second" the converse; each appears only when non-empty |
| Comparator.CheckArcWeights | rayuela/fsa/fsa_testing.py:174-186 | one message per arc-weight mismatch |
| Comparator.RecordWeightMismatches | rayuela/fsa/fsa_testing.py:182-186 | the loop records one message per mismatch, whatever order the mismatches are visited in |
| Comparator.ArcWeightMismatches | rayuela/fsa/fsa_testing.py:174-180 | `_arc_weight_mismatch`: every pair of arcs, one from each operand, with the same identity and different weights; `Comparator.CrossProductIsKeyedJoin` and `Properties.ArcWeightsCategory` characterise it |
| Comparator.CrossProductIsKeyedJoin | rayuela/fsa/fsa_testing.py:174-180 | the cross-product filter equals the join keyed by arc identity: identities both operands hold, with different weights |
| Comparator.SameArcsIff | rayuela/fsa/fsa_testing.py:156-186 | the weighted arcs agree exactly when the arc identities agree and no shared identity carries two weights |
| Comparator.NoSemiringMessagesIff | rayuela/fsa/fsa_testing.py:116-118 | no semiring message exactly when the semirings agree |
| Comparator.NoAlphabetMessagesIff | rayuela/fsa/fsa_testing.py:120-128 | no alphabet message exactly when the input alphabets agree and, for two transducers, so do the output alphabets |
| Comparator.NoStateMessagesIff | rayuela/fsa/fsa_testing.py:130-142 | no states message exactly when the state sets agree |
| Comparator.StateWeightsAgree | rayuela/fsa/fsa_testing.py:144-154 | no state-weight message exactly when both weight functions agree on every state of the first operand |
| Comparator.NoArcMessagesIff | rayuela/fsa/fsa_testing.py:156-186 | no arcs and no arc-weight message exactly when the weighted arcs agree |
| Comparator.SameStructure | rayuela/fsa/fsa_testing.py:91-100 | the documented structural equality: same semiring, input alphabet (and output alphabet between two transducers), states, initial and final weights on every state, and weighted arcs; `Comparator.NoMismatchesIffSameStructure` ties it to the comparison and `Properties.SameStructureSymmetric` shows it symmetric |
| Comparator.NoMismatchesIffSameStructure | rayuela/fsa/fsa_testing.py:89-103 | the comparison records nothing exactly when the documented structural equality holds |
| Comparator.CategoriesEmptyIff | rayuela/fsa/fsa_testing.py:114-188 | the report has nothing in any category exactly when each of the six checks finds nothing |
| Comparator.CategoryMessagesIff | rayuela/fsa/fsa_testing.py:91-100 | the six checks all find nothing exactly when the five documented conditions of structural equality hold |
| Properties.Reflexive | tests/test_fsa_structural_equality.py:104-113 | comparing any automaton with itself records nothing |
| Properties.SameStructureSymmetric | rayuela/fsa/fsa_testing.py:91-100 | the documented structural equality is symmetric |
| Properties.VerdictSymmetric | tests/test_fsa_structural_equality.py:91-94 | the comparison finds nothing one way exactly when it finds nothing the other way |
| Properties.MirroredComponents | rayuela/fsa/fsa_testing.py:116-142 | swapping the operands mirrors the semiring, alphabet and states messages |
| Properties.MirroredArcs | rayuela/fsa/fsa_testing.py:167-172 | swapping the operands swaps "missing in the first" and "missing in the second" |
| Properties.MirroredArcWeights | rayuela/fsa/fsa_testing.py:174-186 | swapping the operands swaps the two weights of every arc-weight message |
| Properties.MirroredStateWeights | rayuela/fsa/fsa_testing.py:146-154 | with equal state sets, swapping the operands swaps the weights of every state-weight message |
| Properties.MirroredReport | rayuela/fsa/fsa_testing.py:116-186 | with equal state sets, the swapped comparison is the mirror image of the original, category by category |
| Properties.StatesCategory | rayuela/fsa/fsa_testing.py:133-142 | the states category holds at most two messages, one per direction, each present exactly when its difference is non-empty |
| Properties.AlphabetCategory | rayuela/fsa/fsa_testing.py:121-128 | the alphabet category holds at most two messages; the output message appears only between two transducers with different output alphabets |
| Properties.ArcsCategoryPresence | rayuela/fsa/fsa_testing.py:164-172 | the arcs category is non-empty exactly when the unweighted arc sets differ |
| Properties.ArcsCategoryContents | rayuela/fsa/fsa_testing.py:167-172 | at most two arcs messages; "missing in the first" is exactly the second's identities minus the first's, and the converse |
| Properties.ArcWeightsCategory | rayuela/fsa/fsa_testing.py:174-186 | one arc-weight message exactly for each identity both hold with different weights, quoting both weights; at most one per identity |
| Properties.OnlyFinalWeightDiffers | rayuela/fsa/fsa_testing.py:144-154 | automata that differ only in one state's final weight yield exactly one message, a final-weight mismatch for that state |
| Properties.AcceptorNeverEqualsTransducer | rayuela/fsa/fsa_testing.py:161-172 | an acceptor and a transducer with at least one arc between them share no arc identity, so they differ in their arcs |
| Properties.ArcFreeAcceptorEqualsTransducer | rayuela/fsa/fsa_testing.py:120-172 | an acceptor and a transducer with no arcs that agree on semiring, input alphabet, states and state weights are structurally equal: the output alphabet is compared only between two transducers, and neither has an arc to compare |
| Properties.RunsAgree | rayuela/fsa/fsa_testing.py:62-70 | two reports that record exactly the comparison's messages are equal, whatever their loop orders and titles |
| Scenarios.Fsa1Fsa2States | tests/test_fsa_structural_equality.py:8-47 | fsa1 against fsa2: state 3 is reported as only in the second |
| Scenarios.Fsa1Fsa2StateWeights | tests/test_fsa_structural_equality.py:8-47 | fsa1 against fsa2: no state-weight message |
| Scenarios.Fsa1Fsa2Arcs | tests/test_fsa_structural_equality.py:8-47 | fsa1 against fsa2: 1 -d-> 3 is missing in the first and 0 -b-> 0 in the second |
| Scenarios.Fsa1Fsa2ArcWeights | tests/test_fsa_structural_equality.py:8-47 | fsa1 against fsa2: the only weight mismatch is 2 -a-> 0, true against false |
| Scenarios.Fsa1Fsa2NotEqual | tests/test_fsa_structural_equality.py:97-99 | fsa1 and fsa2 are not structurally equal, though their semirings agree |
| Scenarios.Fst1Fst2States | tests/test_fsa_structural_equality.py:50-81 | fst1 against fst2: state 2 is reported as only in the second |
| Scenarios.Fst1Fst2StateWeights | tests/test_fsa_structural_equality.py:50-81 | fst1 against fst2: initial weight of 0 (29 against 8) and final weight of 1 (2 against 2.5) |
| Scenarios.Fst1Fst2Arcs | tests/test_fsa_structural_equality.py:50-81 | fst1 against fst2: three arcs are missing in the first and 1 -a:b-> 0 in the second |
| Scenarios.Fst1Fst2ArcWeights | tests/test_fsa_structural_equality.py:50-81 | fst1 against fst2: the only weight mismatch is 1 -b:b-> 0, 43.0 against 43.1 |
| Scenarios.Fst1Fst2NotEqual | tests/test_fsa_structural_equality.py:108-110 | fst1 and fst2 are not structurally equal |
| Scenarios.Fsa1Fst1NotEqual | tests/test_fsa_structural_equality.py:116-118 | fsa1 and fst1 are not structurally equal; the semiring message quotes Boolean and Real |
| Scenarios.StateWeightsOneSided | rayuela/fsa/fsa_testing.py:146-154 | a final weight on a state only the second operand has is reported only when that operand comes first |

## Left out

- Rendering (`__str__`, `__repr__`) is not modelled: the table layout, the humanized category names, word wrapping and the default title. It relies on the external `tabulate` and `textwrap` libraries. `title` and `maxwidth` are kept only as fields.
- The insertion order of the categories is not modelled. It is observable only in the rendering; the verdict and report equality ignore it.
- The text of the messages is not modelled. Each message is a constructor carrying the values it quotes. Two different mismatches could format to the same string in the source; the model keeps them apart.
- The `FSA` and `FST` classes, semiring arithmetic and symbol construction are not part of this model. Automata are plain values, and the semiring is an identity compared for equality.
- The alphabets of the test automata are taken to be the symbols on their arcs, because the source builds them in `FSA.add_arc`, which is not part of this model. The scenario lemmas therefore claim nothing about the alphabet category.
- `Real` weights are Python floats in the source and reals in the scenarios. Only their inequality matters to the comparison, as in 43.0 against 43.1.
- `defaultdict` behaviour is modelled only as far as the comparison uses it. The report's mapping is extended only by `Record`, which creates a category together with its first message. The lookups `fsa1.λ[q]`, `fsa2.λ[q]`, `fsa1.ρ[q]` and `fsa2.ρ[q]` (fsa_testing.py:147 and :151) are modelled as total functions, and the operands as unchanged by the comparison. If the automaton classes back `λ` and `ρ` with defaulting dictionaries, such a lookup also inserts `q` into the weight map of either operand, wherever that state's weight was never set. For the first operand this happens at its own states; for the second it can also happen at states it does not have. The model does not represent those writes.
- The cost of the cross-product join in `_arc_weight_mismatch` is not modelled. Its result is proved equal to the keyed join (`Comparator.CrossProductIsKeyedJoin`).
- Properties.AcceptorNeverEqualsTransducer: assumes that acceptor arcs carry single symbols and transducer arcs carry symbol pairs (`LabelsMatchKind`). The source gets this from how `FSA.add_arc` and `FST.add_arc` build the table, which is not part of this model. Its conclusion needs at least one arc. Without arcs, an acceptor and a transducer that agree on semiring, input alphabet, states and state weights are structurally equal, because fsa_testing.py:125 compares output alphabets only between two transducers (`Properties.ArcFreeAcceptorEqualsTransducer`). So "an acceptor never equals a transducer" holds in the source only when at least one operand has an arc.
