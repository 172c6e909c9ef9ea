/**
 * The phrase-based distortion feature: a stateless feature that charges each
 * phrase application the distance between where the previous phrase ended and
 * where this one starts.
 */
module Distortion {
  import opened Wrappers
  import opened Rules
  import opened Features

  datatype DistortionFF = DistortionFF(name: string, denseFeatureIndex: int)

  /** The feature is stateless; the state slot of its transitions is always null. */
  datatype NoState = NoState

  /** The constructor: the feature exists only under the phrase-based ("stack") search. */
  function Create(searchAlgorithm: string, denseFeatureIndex: int): (r: Result<DistortionFF, string>)
    ensures r.Success? <==> searchAlgorithm == "stack"
    ensures r.Success? ==> r.value.name == "Distortion"
  {
    if searchAlgorithm != "stack" then
      Failure("Distortion feature only application for phrase-based decoding")
    else
      Success(DistortionFF("Distortion", denseFeatureIndex))
  }

  /** `reportDenseFeatures(index)`: records the dense slot and names the one dense feature. */
  function ReportDenseFeatures(ff: DistortionFF, index: int): (r: (DistortionFF, seq<string>))
    ensures r.0.denseFeatureIndex == index && r.0.name == ff.name
    ensures r.1 == [ff.name]
  {
    (ff.(denseFeatureIndex := index), [ff.name])
  }

  /** The source position a phrase of `rule` ending at `j` starts from. */
  function StartPoint(rule: Rule, j: int): int {
    j - |rule.french| + rule.arity
  }

  function Abs(x: int): int {
    if x < 0 then -x else x
  }

  /**
   * `compute`: nothing for the sentinel rules; otherwise one dense addition of
   * minus the jump between the first tail's last index `tailJs[0]` and the
   * start point. `tailJs` holds the `j` of each tail node; with no tail node
   * the source raises an index error.
   */
  function Compute(ff: DistortionFF, rule: Rule, tailJs: seq<int>, i: int, j: int)
    : (r: Result<Transition<NoState>, string>)
    ensures rule.sentinel != Ordinary ==> r == Success(Transition([], None))
    ensures rule.sentinel == Ordinary && tailJs == [] ==> r.Failure?
    ensures r.Success? ==> r.value.state == None
    ensures r.Success? && rule.sentinel == Ordinary ==>
      && |r.value.adds| == 1
      && r.value.adds[0].index == ff.denseFeatureIndex
      && r.value.adds[0].value <= 0.0
      && (r.value.adds[0].value == 0.0 <==> tailJs[0] == StartPoint(rule, j))
      && (r.value.adds[0].value == (tailJs[0] - StartPoint(rule, j)) as real
          || r.value.adds[0].value == (StartPoint(rule, j) - tailJs[0]) as real)
  {
    if rule.sentinel != Ordinary then
      Success(Transition([], None))
    else if tailJs == [] then
      Failure("IndexOutOfBoundsException: no tail node")
    else
      var jumpSize := Abs(tailJs[0] - StartPoint(rule, j));
      Success(Transition([DenseAdd(ff.denseFeatureIndex, (-jumpSize) as real)], None))
  }

  /** A phrase that starts `jump` positions away from where the previous one ended costs `|jump|`. */
  lemma JumpCostsItsLength(ff: DistortionFF, rule: Rule, tailJs: seq<int>, i: int, j: int, jump: int)
    requires rule.sentinel == Ordinary && tailJs != []
    requires tailJs[0] == StartPoint(rule, j) + jump
    ensures Compute(ff, rule, tailJs, i, j).Success?
    ensures Compute(ff, rule, tailJs, i, j).value.adds[0].value == (-Abs(jump)) as real
  {
  }
}
