/** The parts of a weighted acceptor (WFSA) or transducer (WFST)
    that the structural comparison inspects, and the flattening of its
    transition table into arcs (`_arcs` in rayuela/fsa/fsa_testing.py).

    The semiring identity `K`, states `S`, symbols `A` (epsilon included) and
    weights `W` are opaque: the comparison only ever tests them for
    equality. */
module Automata {
  import opened Wrappers

  /** An arc label: one symbol on an acceptor arc, an input/output pair of
      symbols on a transducer arc. */
  datatype Label<A> = Sym(a: A) | Pair(input: A, output: A)

  /** The nested transition table δ : source → label → target → weight.
      Nesting keeps at most one weight per (source, label, target). */
  type Table<S(==), A(==), W> = map<S, map<Label<A>, map<S, W>>>

  /** An automaton: semiring identity `R`, input alphabet `Sigma`, output
      alphabet `Omega` (present exactly for a transducer), states `Q`,
      initial and final weight functions, and the transition table. */
  datatype Automaton<K, !S(==), A(==), W> = Automaton(
    R: K,
    Sigma: set<A>,
    Omega: Option<set<A>>,
    Q: set<S>,
    lambda: S -> W,
    rho: S -> W,
    delta: Table<S, A, W>)
  {
    /** Whether the automaton exposes an output alphabet (is an FST). */
    predicate IsTransducer()
    {
      Omega.Some?
    }
  }

  /** The unweighted identity of an arc. */
  datatype ArcId<S, A> = ArcId(src: S, ab: Label<A>, dst: S)

  /** A flattened arc `(i, ab, j, w)`. */
  datatype Arc<S, A, W> = Arc(src: S, ab: Label<A>, dst: S, w: W)
  {
    function Id(): (id: ArcId<S, A>)
    {
      ArcId(src, ab, dst)
    }
  }

  /** The table holds a weight for this arc identity. */
  predicate HasArc<K, S(==), A(==), W>(a: Automaton<K, S, A, W>, id: ArcId<S, A>)
  {
    && id.src in a.delta
    && id.ab in a.delta[id.src]
    && id.dst in a.delta[id.src][id.ab]
  }

  /** The weight the table holds for an arc identity. */
  function WeightOf<K, S(==), A(==), W>(a: Automaton<K, S, A, W>, id: ArcId<S, A>): (w: W)
    requires HasArc(a, id)
  {
    a.delta[id.src][id.ab][id.dst]
  }

  /** `_arcs`: every arc of the table as a `(i, ab, j, w)` tuple. A tuple is
      an arc exactly when the table maps `i`, `ab`, `j` to `w`. */
  function ArcsOf<K, S(==,!new), A(==,!new), W(==,!new)>(a: Automaton<K, S, A, W>): (arcs: set<Arc<S, A, W>>)
    ensures forall x :: x in arcs <==> HasArc(a, x.Id()) && WeightOf(a, x.Id()) == x.w
  {
    set i, ab, j | i in a.delta && ab in a.delta[i] && j in a.delta[i][ab] :: Arc(i, ab, j, a.delta[i][ab][j])
  }

  /** The arc identities of the table. */
  function Ids<K, S(==,!new), A(==,!new), W>(a: Automaton<K, S, A, W>): (ids: set<ArcId<S, A>>)
    ensures forall id :: id in ids <==> HasArc(a, id)
  {
    set i, ab, j | i in a.delta && ab in a.delta[i] && j in a.delta[i][ab] :: ArcId(i, ab, j)
  }

  /** `_unweighted`: the identities of a set of arcs, weights dropped. */
  function Unweighted<S(==), A(==), W(==)>(arcs: set<Arc<S, A, W>>): (ids: set<ArcId<S, A>>)
  {
    set x | x in arcs :: x.Id()
  }

  /** Dropping the weights of the flattened arcs gives exactly the arc
      identities present in the table. */
  lemma UnweightedArcs<K, S(!new), A(!new), W(!new)>(a: Automaton<K, S, A, W>)
    ensures Unweighted(ArcsOf(a)) == Ids(a)
  {
    forall id | id in Ids(a)
      ensures id in Unweighted(ArcsOf(a))
    {
      var x := Arc(id.src, id.ab, id.dst, WeightOf(a, id));
      assert x.Id() == id;
      assert x in ArcsOf(a);
    }
  }

  /** The flattened arcs carry one weight per identity: two arcs with the
      same identity are the same arc. */
  lemma ArcsFunctional<K, S(!new), A(!new), W(!new)>(a: Automaton<K, S, A, W>, x: Arc<S, A, W>, y: Arc<S, A, W>)
    requires x in ArcsOf(a) && y in ArcsOf(a) && x.Id() == y.Id()
    ensures x == y
  {
  }

  /** Every entry of the table is an arc. */
  lemma ArcOfEntry<K, S(!new), A(!new), W(!new)>(a: Automaton<K, S, A, W>, id: ArcId<S, A>)
    requires HasArc(a, id)
    ensures Arc(id.src, id.ab, id.dst, WeightOf(a, id)) in ArcsOf(a)
  {
  }

  /** An automaton whose table holds no arc flattens to no arcs; in
      particular an empty table gives the empty set. */
  lemma NoArcsIffEmptyRows<K, S(!new), A(!new), W(!new)>(a: Automaton<K, S, A, W>)
    ensures ArcsOf(a) == {} <==> forall i, ab :: i in a.delta && ab in a.delta[i] ==> a.delta[i][ab] == map[]
    ensures a.delta == map[] ==> ArcsOf(a) == {}
  {
    if ArcsOf(a) == {} {
      forall i, ab | i in a.delta && ab in a.delta[i]
        ensures a.delta[i][ab] == map[]
      {
        if a.delta[i][ab] != map[] {
          var j :| j in a.delta[i][ab];
          ArcOfEntry(a, ArcId(i, ab, j));
        }
      }
    }
  }

  /** The arcs of an acceptor carry single symbols and those of a
      transducer carry symbol pairs. */
  ghost predicate LabelsMatchKind<K, S(!new), A(!new), W>(a: Automaton<K, S, A, W>)
  {
    forall id :: id in Ids(a) ==> (id.ab.Pair? <==> a.IsTransducer())
  }
}
