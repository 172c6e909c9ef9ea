/**
 * The node of the phrase-based search hypergraph: its coverage of the source,
 * the index of the last source word it translated, the dynamic-programming
 * states of the stateful features, and the list of derivation edges reaching
 * it. Two nodes are recombinable when everything later search depends on is
 * equal; `Absorb` merges a recombinable node into this one in place.
 */
module Hypotheses {
  import opened Wrappers
  import opened Rules

  /** The coverage bit vector; only its equality and hash are used here. */
  type Coverage(==)

  /** One feature's dynamic-programming state; only its equality and hash are used here. */
  type DPState(==)

  /** A node of the hypergraph that an edge can point back to, compared by identity. */
  type NodeRef(==)

  /**
   * A derivation edge: the rule applied, its costs, and the tail nodes it
   * comes from (`None` for Java's null, as on the root's edge).
   */
  datatype HyperEdge = HyperEdge(rule: Rule, viterbiCost: real, transitionCost: real,
                                 tails: Option<seq<NodeRef>>)

  /** What the search hands over when a candidate is accepted into a stack. */
  datatype Candidate = Candidate(
    spanEnd: int,
    states: Option<seq<DPState>>,
    rule: Rule,
    viterbiCost: real,
    transitionCost: real,
    tailNodes: seq<NodeRef>,
    score: real,
    coverage: Coverage)

  // ---------------------------------------------------------------------------
  // Java `int` arithmetic

  const INT_MODULUS: int := 0x1_0000_0000

  /** The Java `int` that a mathematical integer wraps around to. */
  function Wrap32(x: int): (r: int)
    ensures -0x8000_0000 <= r < 0x8000_0000
    ensures (r - x) % INT_MODULUS == 0
  {
    var m := x % INT_MODULUS;
    if m >= 0x8000_0000 then m - INT_MODULUS else m
  }

  lemma WrapOfCongruent(x: int, y: int)
    requires (x - y) % INT_MODULUS == 0
    ensures Wrap32(x) == Wrap32(y)
  {
    var q := (x - y) / INT_MODULUS;
    assert x == y + q * INT_MODULUS;
  }

  /** Wrapping a factor before multiplying does not change the wrapped product. */
  lemma WrapFactor(a: int, b: int)
    ensures Wrap32(Wrap32(a) * b) == Wrap32(a * b)
    ensures Wrap32(a * Wrap32(b)) == Wrap32(a * b)
  {
    WrapLeftFactor(a, b);
    WrapLeftFactor(b, a);
    assert a * Wrap32(b) == Wrap32(b) * a && b * a == a * b;
  }

  lemma WrapLeftFactor(a: int, b: int)
    ensures Wrap32(Wrap32(a) * b) == Wrap32(a * b)
  {
    var w := Wrap32(a);
    var q := (w - a) / INT_MODULUS;
    assert w == a + q * INT_MODULUS;
    ShiftedProduct(a, q, b);
    WrapOfCongruent(w * b, a * b);
  }

  lemma ShiftedProduct(a: int, q: int, b: int)
    ensures (a + q * INT_MODULUS) * b - a * b == (q * b) * INT_MODULUS
  {
  }

  /** Adding two wrapped values and wrapping gives the wrapped sum. */
  lemma WrapSum(a: int, b: int)
    ensures Wrap32(Wrap32(a) + Wrap32(b)) == Wrap32(a + b)
  {
    var qa := (Wrap32(a) - a) / INT_MODULUS;
    var qb := (Wrap32(b) - b) / INT_MODULUS;
    assert Wrap32(a) + Wrap32(b) == a + b + (qa + qb) * INT_MODULUS;
    WrapOfCongruent(Wrap32(a) + Wrap32(b), a + b);
  }

  /** The product of the factors `57 + h` over the state hashes `hs`. */
  function StateProduct(hs: seq<int>): int {
    if hs == [] then 1 else StateProduct(hs[..|hs| - 1]) * (57 + hs[|hs| - 1])
  }

  /** One turn of the hash loop multiplies the exact product by one more factor. */
  lemma HashStep(base: int, hs: seq<int>, h: int)
    ensures Wrap32(Wrap32(base * StateProduct(hs)) * Wrap32(57 + h))
         == Wrap32(base * StateProduct(hs + [h]))
  {
    var p := StateProduct(hs);
    assert (hs + [h])[..|hs|] == hs;
    assert StateProduct(hs + [h]) == p * (57 + h);
    WrapFactor(base * p, Wrap32(57 + h));
    WrapFactor(base * p, 57 + h);
    assert base * p * (57 + h) == base * (p * (57 + h));
  }

  /** Equal-size state lists whose states are equal position by position, or both null. */
  predicate SameStates(a: Option<seq<DPState>>, b: Option<seq<DPState>>) {
    || (a.None? && b.None?)
    || (a.Some? && b.Some? && |a.value| == |b.value|
        && forall k :: 0 <= k < |a.value| ==> a.value[k] == b.value[k])
  }

  /** Descending order on scores, as `Float.compare(o.score, this.score)` gives it. */
  function FloatCompare(x: real, y: real): int {
    if x < y then -1 else if x > y then 1 else 0
  }

  class Hypothesis {
    const i: int
    /** Overloaded by the phrase decoder to hold the last source index covered. */
    const j: int
    const lhs: int
    const coverage: Coverage
    const dpStates: Option<seq<DPState>>
    var bestEdge: Option<HyperEdge>
    var score: real
    var hyperedges: seq<HyperEdge>

    /**
     * The root hypothesis of a sentence: `xId` is the vocabulary id of `[X]`,
     * `bos` that of `<s>`, and `firstWordCovered` the value of `new Coverage(1)`.
     */
    constructor Root(states: Option<seq<DPState>>, futureCost: real, xId: int, bos: int,
                     firstWordCovered: Coverage)
      ensures i == 0 && j == 1 && lhs == xId
      ensures dpStates == states && coverage == firstWordCovered
      ensures bestEdge == Some(HyperEdge(BeginRule(bos), 0.0, 0.0, None))
      ensures bestEdge.value.rule.sentinel == BeginSentinel
      ensures hyperedges == [bestEdge.value]
      ensures score == futureCost
    {
      i, j, lhs := 0, 1, xId;
      dpStates := states;
      coverage := firstWordCovered;
      var edge := HyperEdge(BeginRule(bos), 0.0, 0.0, None);
      bestEdge := Some(edge);
      hyperedges := [edge];
      score := futureCost;
    }

    /** The hypothesis made from an accepted candidate. */
    constructor FromCandidate(cand: Candidate, xId: int)
      ensures i == -1 && j == cand.spanEnd && lhs == xId
      ensures dpStates == cand.states && coverage == cand.coverage
      ensures bestEdge == Some(HyperEdge(cand.rule, cand.viterbiCost, cand.transitionCost, Some(cand.tailNodes)))
      ensures hyperedges == [bestEdge.value]
      ensures score == cand.score
    {
      i, j, lhs := -1, cand.spanEnd, xId;
      dpStates := cand.states;
      coverage := cand.coverage;
      var edge := HyperEdge(cand.rule, cand.viterbiCost, cand.transitionCost, Some(cand.tailNodes));
      bestEdge := Some(edge);
      hyperedges := [edge];
      score := cand.score;
    }

    /**
     * Extends `previous` to `sourceEnd`. The states and the target rule passed
     * in are ignored: the new node has no states and no edge.
     */
    constructor Extend(states: Option<seq<DPState>>, score: real, previous: Hypothesis,
                       sourceEnd: int, target: Rule)
      ensures i == -1 && j == sourceEnd && lhs == -1
      ensures dpStates == None && coverage == previous.coverage
      ensures bestEdge == None && hyperedges == []
      ensures this.score == score
    {
      i, j, lhs := -1, sourceEnd, -1;
      dpStates := None;
      coverage := previous.coverage;
      bestEdge := None;
      hyperedges := [];
      this.score := score;
    }

    function LastSourceIndex(): int {
      j
    }

    /** Recombination equivalence: same last source index, coverage and states. */
    predicate Recombinable(other: Hypothesis) {
      && LastSourceIndex() == other.LastSourceIndex()
      && coverage == other.coverage
      && SameStates(dpStates, other.dpStates)
    }

    /** `hashCode`, in closed form: one wrap-around of the exact product. */
    function HashValue(coverageHash: Coverage -> int, stateHash: DPState -> int): (h: int)
      ensures -0x8000_0000 <= h < 0x8000_0000
    {
      var hs := if dpStates.Some? then Mapped(dpStates.value, stateHash) else [];
      Wrap32((31 * j + 19 * coverageHash(coverage)) * StateProduct(hs))
    }

    /** `equals(Object)`: only another hypothesis can be equal, and only a recombinable one. */
    method Equals(obj: object?) returns (eq: bool)
      ensures eq <==> obj is Hypothesis && Recombinable(obj as Hypothesis)
    {
      if !(obj is Hypothesis) {
        return false;
      }
      var other := obj as Hypothesis;
      if LastSourceIndex() != other.LastSourceIndex() || coverage != other.coverage {
        return false;
      }
      if dpStates.None? {
        return other.dpStates.None?;
      }
      if other.dpStates.None? {
        return false;
      }
      var mine, theirs := dpStates.value, other.dpStates.value;
      if |mine| != |theirs| {
        return false;
      }
      var k := 0;
      while k < |mine|
        invariant 0 <= k <= |mine|
        invariant forall m :: 0 <= m < k ==> mine[m] == theirs[m]
      {
        if mine[k] != theirs[k] {
          return false;
        }
        k := k + 1;
      }
      return true;
    }

    /**
     * `hashCode`: `31 * j + 19 * coverage hash`, then multiplied by `57 + h`
     * for every state hash `h`, each step wrapping around as Java `int` does.
     */
    method HashCode(coverageHash: Coverage -> int, stateHash: DPState -> int) returns (hash: int)
      ensures hash == HashValue(coverageHash, stateHash)
    {
      var base := 31 * j + 19 * coverageHash(coverage);
      hash := Wrap32(Wrap32(31 * j) + Wrap32(19 * coverageHash(coverage)));
      WrapSum(31 * j, 19 * coverageHash(coverage));
      if dpStates.Some? && |dpStates.value| > 0 {
        var states := dpStates.value;
        var k := 0;
        while k < |states|
          invariant 0 <= k <= |states|
          invariant hash == Wrap32(base * StateProduct(Mapped(states[..k], stateHash)))
        {
          HashStep(base, Mapped(states[..k], stateHash), stateHash(states[k]));
          assert Mapped(states[..k + 1], stateHash)
              == Mapped(states[..k], stateHash) + [stateHash(states[k])];
          hash := Wrap32(hash * Wrap32(57 + stateHash(states[k])));
          k := k + 1;
        }
        assert states[..k] == states;
      }
    }

    /** `compareTo`: negative when this node scores higher, so sorting puts the best first. */
    function CompareTo(o: Hypothesis): (r: int)
      reads this, o
      ensures r < 0 <==> score > o.score
      ensures r == 0 <==> score == o.score
      ensures r > 0 <==> score < o.score
    {
      FloatCompare(o.score, score)
    }

    /**
     * Recombination: this node keeps the better score and appends every
     * incoming edge of `added`, in order, after its own; its coverage, last
     * index and states do not change.
     */
    method Absorb(added: Hypothesis)
      requires Recombinable(added)
      modifies this
      ensures score == if old(score) >= old(added.score) then old(score) else old(added.score)
      ensures score >= old(score) && score >= old(added.score)
      ensures hyperedges == old(hyperedges) + old(added.hyperedges)
      ensures |hyperedges| == |old(hyperedges)| + |old(added.hyperedges)|
      ensures multiset(hyperedges) == multiset(old(hyperedges)) + multiset(old(added.hyperedges))
    {
      var addedEdges := added.hyperedges;
      if added.score > score {
        score := added.score;
      }
      hyperedges := hyperedges + addedEdges;
    }
  }

  /** Recombinability is an equivalence relation. */
  lemma RecombinableIsEquivalence(a: Hypothesis, b: Hypothesis, c: Hypothesis)
    ensures a.Recombinable(a)
    ensures a.Recombinable(b) ==> b.Recombinable(a)
    ensures a.Recombinable(b) && b.Recombinable(c) ==> a.Recombinable(c)
  {
  }

  /** Recombinable hypotheses have equal hash codes, whatever the coverage and state hashes. */
  lemma RecombinableSameHash(a: Hypothesis, b: Hypothesis,
                             coverageHash: Coverage -> int, stateHash: DPState -> int)
    requires a.Recombinable(b)
    ensures a.HashValue(coverageHash, stateHash) == b.HashValue(coverageHash, stateHash)
  {
    if a.dpStates.Some? {
      assert a.dpStates.value == b.dpStates.value;
    }
  }

  /** `compareTo` is antisymmetric and transitive: a total preorder by descending score. */
  lemma CompareToIsDescendingOrder(a: Hypothesis, b: Hypothesis, c: Hypothesis)
    ensures a.CompareTo(b) == -b.CompareTo(a)
    ensures a.CompareTo(b) <= 0 && b.CompareTo(c) <= 0 ==> a.CompareTo(c) <= 0
    ensures a.CompareTo(b) <= 0 ==> a.score >= b.score
  {
  }
}
