/**
 * Grammar rules as the search and the features see them. Word ids are the
 * vocabulary's integers; on the target side a nonterminal that refers to the
 * k-th tail node is stored as the id -(k+1).
 */
module Rules {

  /**
   * The two sentinel rules are compared by reference in the decoder
   * (`rule != Hypothesis.BEGIN_RULE`); the tag stands for that identity.
   */
  datatype Sentinel = BeginSentinel | EndSentinel | Ordinary

  datatype Rule = Rule(sentinel: Sentinel, french: seq<int>, english: seq<int>, arity: nat)

  /** `[X] ||| <s> ||| <s>`, given the vocabulary id of `<s>`. */
  function BeginRule(bos: int): Rule {
    Rule(BeginSentinel, [bos], [bos], 0)
  }

  /** `[GOAL] ||| [X,1] </s> ||| [X,1] </s>`, given the ids of `[X,1]` and `</s>`. */
  function EndRule(nonterminal: int, eos: int): Rule {
    Rule(EndSentinel, [nonterminal, eos], [-1, eos], 1)
  }
}

/** What a feature function hands back to the search for one rule application. */
module Features {
  import opened Wrappers

  /** One `acc.add(denseFeatureIndex, value)` on the accumulator. */
  datatype DenseAdd = DenseAdd(index: int, value: real)

  /**
   * The accumulator additions a `compute` call makes, in order, and the
   * dynamic-programming state it returns (`None` for Java's null).
   */
  datatype Transition<S> = Transition(adds: seq<DenseAdd>, state: Option<S>)
}
