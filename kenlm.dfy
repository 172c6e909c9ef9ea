/**
 * The left-state-minimising KenLM language-model feature. It encodes a rule's
 * target side into the word array handed to the native scorer, and keeps a
 * process-wide registry from sentence ids to native memory pools: a pool is
 * created on the first scoring call for a sentence and destroyed explicitly
 * once the sentence's output has been produced.
 *
 * The native library is modelled by its pool allocator (`NativeKenLM`); the
 * scoring calls `probRule` and `estimateRule` are parameters.
 */
module StateMinimizingLM {
  import opened Wrappers
  import opened Rules
  import opened Features

  /** A KenLM state: a fresh empty one, or the native handle the scorer returned. */
  datatype KenLMState = FreshState | Handle(pointer: int)

  /** What the native `probRule` returns: the new state and the log probability. */
  datatype StateProbPair = StateProbPair(state: KenLMState, prob: real)

  /** The constructor's argument check: only the "kenlm" backend is accepted. */
  function CheckLmType(parsedArgs: map<string, string>): (r: Outcome<string>)
    ensures r.Fail? <==> "lm_type" in parsedArgs && parsedArgs["lm_type"] != "kenlm"
  {
    if "lm_type" in parsedArgs && parsedArgs["lm_type"] != "kenlm" then
      Fail("StateMinimizingLanguageModel only supports 'kenlm' lm_type backend")
    else
      Pass
  }

  // ---------------------------------------------------------------------------
  // Word arrays handed to the native scorer

  /** For the context-free estimate a nonterminal is marked `-1`; a terminal is its id. */
  function EstimateWord(id: int, isNonterminal: int -> bool): int {
    if isNonterminal(id) then -1 else id
  }

  function EstimateWords(ruleWords: seq<int>, isNonterminal: int -> bool): (ws: seq<int>)
    ensures |ws| == |ruleWords|
  {
    seq(|ruleWords|, x requires 0 <= x < |ruleWords| => EstimateWord(ruleWords[x], isNonterminal))
  }

  /** The tail node a target-side nonterminal id refers to. */
  function TailIndex(id: int): int {
    -(id + 1)
  }

  /** Every nonterminal of the target side refers to an existing tail node. */
  predicate TailsCover(ruleWords: seq<int>, tailHandles: seq<int>, isNonterminal: int -> bool) {
    forall x :: 0 <= x < |ruleWords| && isNonterminal(ruleWords[x]) ==>
      0 <= TailIndex(ruleWords[x]) < |tailHandles|
  }

  /**
   * For real scoring a nonterminal becomes the negated state handle of the
   * tail it refers to; `tailHandles[k]` is tail `k`'s KenLM state handle.
   */
  function ScoringWord(id: int, tailHandles: seq<int>, isNonterminal: int -> bool): int
    requires isNonterminal(id) ==> 0 <= TailIndex(id) < |tailHandles|
  {
    if isNonterminal(id) then -tailHandles[TailIndex(id)] else id
  }

  /** The scoring word array, or the index error raised for a missing tail node. */
  function ScoringWords(ruleWords: seq<int>, tailHandles: seq<int>, isNonterminal: int -> bool)
    : (r: Result<seq<int>, string>)
    ensures r.Success? <==> TailsCover(ruleWords, tailHandles, isNonterminal)
    ensures r.Success? ==> |r.value| == |ruleWords|
  {
    if !TailsCover(ruleWords, tailHandles, isNonterminal) then
      Failure("IndexOutOfBoundsException: nonterminal without a tail node")
    else
      Success(seq(|ruleWords|, x requires 0 <= x < |ruleWords| =>
        ScoringWord(ruleWords[x], tailHandles, isNonterminal)))
  }

  /**
   * The two encodings agree on terminals; on a nonterminal the estimate holds
   * `-1` and the scoring array the negated handle of the tail it names.
   */
  lemma EncodingsAgreeOnTerminals(ruleWords: seq<int>, tailHandles: seq<int>,
                                  isNonterminal: int -> bool, x: int)
    requires ScoringWords(ruleWords, tailHandles, isNonterminal).Success?
    requires 0 <= x < |ruleWords|
    ensures var est := EstimateWords(ruleWords, isNonterminal);
            var scored := ScoringWords(ruleWords, tailHandles, isNonterminal).value;
            && (!isNonterminal(ruleWords[x]) ==> est[x] == scored[x] == ruleWords[x])
            && (isNonterminal(ruleWords[x]) ==>
                  est[x] == -1 && scored[x] == -tailHandles[-(ruleWords[x] + 1)])
  {
  }

  /** Fills the `long[]` of the estimate, slot by slot. */
  method EstimateWordArray(ruleWords: seq<int>, isNonterminal: int -> bool) returns (words: array<int>)
    ensures words[..] == EstimateWords(ruleWords, isNonterminal)
  {
    words := new int[|ruleWords|];
    var x := 0;
    while x < |ruleWords|
      invariant 0 <= x <= |ruleWords|
      invariant forall k :: 0 <= k < x ==> words[k] == EstimateWord(ruleWords[k], isNonterminal)
    {
      var id := ruleWords[x];
      if isNonterminal(id) {
        words[x] := -1;
      } else {
        words[x] := id;
      }
      x := x + 1;
    }
  }

  /** Fills the `long[]` for real scoring; a missing tail node stops it with an index error. */
  method ScoringWordArray(ruleWords: seq<int>, tailHandles: seq<int>, isNonterminal: int -> bool)
    returns (r: Result<array<int>, string>)
    ensures r.Success? <==> ScoringWords(ruleWords, tailHandles, isNonterminal).Success?
    ensures r.Success? ==> r.value[..] == ScoringWords(ruleWords, tailHandles, isNonterminal).value
  {
    var words := new int[|ruleWords|];
    var x := 0;
    while x < |ruleWords|
      invariant 0 <= x <= |ruleWords|
      invariant forall k :: 0 <= k < x && isNonterminal(ruleWords[k]) ==>
        0 <= TailIndex(ruleWords[k]) < |tailHandles|
      invariant forall k :: 0 <= k < x ==>
        words[k] == ScoringWord(ruleWords[k], tailHandles, isNonterminal)
    {
      var id := ruleWords[x];
      if isNonterminal(id) {
        var index := -(id + 1);
        if !(0 <= index < |tailHandles|) {
          return Failure("IndexOutOfBoundsException: nonterminal without a tail node");
        }
        words[x] := -tailHandles[index];
      } else {
        words[x] := id;
      }
      x := x + 1;
    }
    return Success(words);
  }

  // ---------------------------------------------------------------------------
  // Native memory pools

  /** The native library's pool allocator: `createPool` hands out a handle never used before. */
  class NativeKenLM {
    var livePools: set<int>
    var nextPool: int
    /** How many times `createPool` has been called. */
    var poolsCreated: nat

    ghost predicate Valid()
      reads this
    {
      forall p :: p in livePools ==> p < nextPool
    }

    constructor ()
      ensures Valid() && livePools == {} && poolsCreated == 0
    {
      livePools, nextPool, poolsCreated := {}, 1, 0;
    }

    method CreatePool() returns (pool: int)
      requires Valid()
      modifies this
      ensures Valid()
      ensures pool !in old(livePools) && livePools == old(livePools) + {pool}
      ensures pool == old(nextPool) && nextPool > old(nextPool)
      ensures poolsCreated == old(poolsCreated) + 1
    {
      pool := nextPool;
      livePools := livePools + {pool};
      nextPool := nextPool + 1;
      poolsCreated := poolsCreated + 1;
    }

    method DestroyPool(pool: int)
      requires Valid()
      modifies this
      ensures Valid()
      ensures livePools == old(livePools) - {pool}
      ensures nextPool == old(nextPool) && poolsCreated == old(poolsCreated)
    {
      livePools := livePools - {pool};
    }
  }

  /** The static `poolMap`, shared by every instance of the feature: sentence id to pool. */
  class PoolRegistry {
    var poolMap: map<int, int>
    const native: NativeKenLM

    /** Every registered pool is live, and no two sentences share a pool. */
    ghost predicate Valid()
      reads this, native
    {
      && native.Valid()
      && (forall s :: s in poolMap ==> poolMap[s] in native.livePools)
      && (forall s, t :: s in poolMap && t in poolMap && s != t ==> poolMap[s] != poolMap[t])
    }

    constructor (native: NativeKenLM)
      requires native.Valid()
      ensures Valid() && poolMap == map[] && this.native == native
    {
      poolMap := map[];
      this.native := native;
    }
  }

  class StateMinimizingLanguageModel {
    const name: string
    const weight: real
    var denseFeatureIndex: int
    const registry: PoolRegistry

    constructor (name: string, weight: real, registry: PoolRegistry)
      ensures this.name == name && this.weight == weight && this.registry == registry
      ensures denseFeatureIndex == -1
    {
      this.name, this.weight, this.registry := name, weight, registry;
      denseFeatureIndex := -1;
    }

    /** Construction from the parsed feature arguments; fails for a backend other than KenLM. */
    static method Create(parsedArgs: map<string, string>, name: string, weight: real,
                         registry: PoolRegistry)
      returns (r: Result<StateMinimizingLanguageModel, string>)
      ensures r.Failure? <==> "lm_type" in parsedArgs && parsedArgs["lm_type"] != "kenlm"
      ensures r.Success? ==> r.value.registry == registry && r.value.name == name
    {
      var check := CheckLmType(parsedArgs);
      if check.Fail? {
        return Failure(check.error);
      }
      var lm := new StateMinimizingLanguageModel(name, weight, registry);
      return Success(lm);
    }

    /** `reportDenseFeatures(index)`: records the dense slot and names the one dense feature. */
    method ReportDenseFeatures(index: int) returns (names: seq<string>)
      modifies this
      ensures denseFeatureIndex == index && names == [name]
    {
      denseFeatureIndex := index;
      names := [name];
    }

    /** `estimateCost`: the weighted native estimate of the rule with nonterminals marked `-1`. */
    method EstimateCost(rule: Rule, estimateRule: seq<int> -> real, isNonterminal: int -> bool)
      returns (cost: real)
      ensures cost == weight * estimateRule(EstimateWords(rule.english, isNonterminal))
    {
      var words := EstimateWordArray(rule.english, isNonterminal);
      cost := weight * estimateRule(words[..]);
    }

    /**
     * `compute`: encodes the target words (`ruleWords` is the rule's target
     * side, or its annotation tags), looks up this sentence's pool and creates
     * one only if the sentence has none, then records the scorer's probability
     * at the dense slot and returns the scorer's state.
     */
    method Compute(ruleWords: seq<int>, tailHandles: seq<int>, sentId: int,
                   isNonterminal: int -> bool, probRule: (seq<int>, int) -> StateProbPair)
      returns (r: Result<Transition<KenLMState>, string>)
      requires registry.Valid()
      modifies registry, registry.native
      ensures registry.Valid()
      ensures ScoringWords(ruleWords, tailHandles, isNonterminal).Failure? ==>
        && r.Failure?
        && registry.poolMap == old(registry.poolMap)
        && registry.native.livePools == old(registry.native.livePools)
        && registry.native.nextPool == old(registry.native.nextPool)
        && registry.native.poolsCreated == old(registry.native.poolsCreated)
      ensures ScoringWords(ruleWords, tailHandles, isNonterminal).Success? ==>
        && sentId in registry.poolMap
        && (sentId in old(registry.poolMap) ==>
              && registry.poolMap == old(registry.poolMap)
              && registry.native.livePools == old(registry.native.livePools)
              && registry.native.nextPool == old(registry.native.nextPool)
              && registry.native.poolsCreated == old(registry.native.poolsCreated))
        && (sentId !in old(registry.poolMap) ==>
              && registry.poolMap == old(registry.poolMap)[sentId := registry.poolMap[sentId]]
              && registry.poolMap[sentId] !in old(registry.native.livePools)
              && registry.native.livePools == old(registry.native.livePools) + {registry.poolMap[sentId]}
              && registry.native.nextPool > old(registry.native.nextPool)
              && registry.native.poolsCreated == old(registry.native.poolsCreated) + 1)
        && var pair := probRule(ScoringWords(ruleWords, tailHandles, isNonterminal).value,
                                registry.poolMap[sentId]);
           r == Success(Transition([DenseAdd(denseFeatureIndex, pair.prob)], Some(pair.state)))
    {
      var encoded := ScoringWordArray(ruleWords, tailHandles, isNonterminal);
      if encoded.Failure? {
        return Failure(encoded.error);
      }
      var words := encoded.value;
      if sentId !in registry.poolMap {
        var pool := registry.native.CreatePool();
        registry.poolMap := registry.poolMap[sentId := pool];
      }
      var pair := probRule(words[..], registry.poolMap[sentId]);
      r := Success(Transition([DenseAdd(denseFeatureIndex, pair.prob)], Some(pair.state)));
    }

    /**
     * `destroyPool(sentId)`: frees this sentence's pool if it has one and
     * forgets the sentence; every other sentence keeps its pool.
     */
    method DestroyPool(sentId: int)
      requires registry.Valid()
      modifies registry, registry.native
      ensures registry.Valid()
      ensures registry.poolMap == old(registry.poolMap) - {sentId}
      ensures sentId in old(registry.poolMap) ==>
        registry.native.livePools == old(registry.native.livePools) - {old(registry.poolMap)[sentId]}
      ensures sentId !in old(registry.poolMap) ==>
        registry.native.livePools == old(registry.native.livePools)
      ensures registry.native.poolsCreated == old(registry.native.poolsCreated)
    {
      if sentId in registry.poolMap {
        registry.native.DestroyPool(registry.poolMap[sentId]);
      }
      registry.poolMap := registry.poolMap - {sentId};
    }

    /** `computeFinal`: no addition, and a fresh empty state. */
    function ComputeFinal(): (t: Transition<KenLMState>)
      ensures t.adds == [] && t.state == Some(FreshState)
    {
      Transition([], Some(FreshState))
    }

    /** `estimateFutureCost`: KenLM already includes prefix probabilities, so it is zero. */
    function EstimateFutureCost(rule: Rule, state: KenLMState): (cost: real)
      ensures cost == 0.0
    {
      0.0
    }
  }
}
