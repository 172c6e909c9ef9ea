/**
 * The decoder object: its feature weights, the custom phrase table that
 * `add_rule`/`remove_rule` directives edit at run time, and the pool of
 * worker threads a single sentence is translated with.
 *
 * The custom table is a trie over source-side word ids; it is modelled by the
 * rule lists of the nodes that hold rules, keyed by their path from the root.
 * A node exists when its path is a prefix of such a key (nodes are never
 * deleted). The vocabulary, the rule parser, the worker's translation and
 * the grammar file reader are parameters.
 */
module DecoderCore {
  import opened Wrappers
  import opened Text
  import opened Rules
  import opened DecoderNames
  import opened DecoderWeights

  // ---------------------------------------------------------------------------
  // Vocabulary checksums of packed grammars

  /** Every checksum after a non-empty one equals it. */
  predicate ChecksumsAgree(checksums: seq<string>) {
    forall j, k :: 0 <= j < k < |checksums| && checksums[j] != "" ==> checksums[k] == checksums[j]
  }

  /**
   * `checkSharedVocabularyChecksumsForPackedGrammars`: leading empty checksums
   * are passed over; from the first non-empty one on, every checksum (an empty
   * one included) must equal it.
   */
  method CheckSharedVocabularyChecksums(checksums: seq<string>) returns (r: Outcome<string>)
    ensures r.Pass? <==> ChecksumsAgree(checksums)
  {
    var previous := "";
    for k := 0 to |checksums|
      invariant previous == "" ==> forall m :: 0 <= m < k ==> checksums[m] == ""
      invariant previous != "" ==> exists m :: 0 <= m < k && checksums[m] == previous
      invariant forall m :: 0 <= m < k && checksums[m] != "" ==> checksums[m] == previous
      invariant ChecksumsAgree(checksums[..k])
    {
      var checksum := checksums[k];
      if previous == "" {
        previous := checksum;
      } else {
        if checksum != previous {
          ghost var m :| 0 <= m < k && checksums[m] == previous;
          assert checksums[m] != "" && checksums[k] != checksums[m];
          return Fail("Trying to load multiple packed grammars with different vocabularies!"
                      + "Have you packed them jointly?");
        }
        previous := checksum;
      }
      assert forall j :: 0 <= j < k && checksums[j] != "" ==> checksums[j] == checksums[k];
    }
    assert checksums[..|checksums|] == checksums;
    return Pass;
  }

  /** When no checksum is empty, the check passes exactly when all checksums are equal. */
  lemma {:induction false} NonEmptyChecksumsAgreeIffEqual(checksums: seq<string>)
    requires forall k :: 0 <= k < |checksums| ==> checksums[k] != ""
    ensures ChecksumsAgree(checksums) <==>
            forall j, k :: 0 <= j < |checksums| && 0 <= k < |checksums| ==> checksums[j] == checksums[k]
  {
    if ChecksumsAgree(checksums) {
      forall j, k | 0 <= j < |checksums| && 0 <= k < |checksums|
        ensures checksums[j] == checksums[k]
      {
        if j < k {
          assert checksums[k] == checksums[j];
        } else if k < j {
          assert checksums[j] == checksums[k];
        }
      }
    }
  }

  /** An empty checksum after a non-empty one is a mismatch, not a reset. */
  lemma EmptyAfterNonEmptyFails(a: string)
    requires a != ""
    ensures !ChecksumsAgree([a, "", a])
  {
    assert [a, "", a][1] != [a, "", a][0];
  }

  // ---------------------------------------------------------------------------
  // The `set_weights` directive

  /** The name/value pairs of `set_weights`, up to the first pair that is missing its value or does not parse. */
  datatype PairsRead = PairsRead(entries: seq<Weight>, error: Option<string>)

  function WeightPairs(args: seq<string>, parseFloat: string -> Option<real>): PairsRead
    decreases |args|
  {
    if args == [] then PairsRead([], None)
    else if |args| < 2 then PairsRead([], Some("ArrayIndexOutOfBoundsException"))
    else match parseFloat(args[1])
      case None => PairsRead([], Some("NumberFormatException: " + args[1]))
      case Some(v) =>
        var rest := WeightPairs(args[2..], parseFloat);
        PairsRead([Weight(args[0], v)] + rest.entries, rest.error)
  }

  /** Pair `k` of the directive names `args[2k]` and carries the value of `args[2k + 1]`. */
  lemma {:induction false} WeightPairsAreArgumentPairs(args: seq<string>, parseFloat: string -> Option<real>)
    ensures var pr := WeightPairs(args, parseFloat);
            && 2 * |pr.entries| <= |args|
            && (pr.error.None? ==> 2 * |pr.entries| == |args|)
            && forall k :: 0 <= k < |pr.entries| ==>
                 pr.entries[k].name == args[2 * k] && parseFloat(args[2 * k + 1]) == Some(pr.entries[k].value)
    decreases |args|
  {
    if |args| >= 2 && parseFloat(args[1]).Some? {
      WeightPairsAreArgumentPairs(args[2..], parseFloat);
      var pr := WeightPairs(args, parseFloat);
      forall k | 1 <= k < |pr.entries|
        ensures pr.entries[k].name == args[2 * k] && parseFloat(args[2 * k + 1]) == Some(pr.entries[k].value)
      {
        assert args[2..][2 * (k - 1)] == args[2 * k];
        assert args[2..][2 * (k - 1) + 1] == args[2 * k + 1];
      }
    }
  }

  /**
   * `set_weights` as written: every pair's value is stored under `args[1]`,
   * the first pair's value, instead of under the pair's own name.
   */
  function SetWeightsAsWritten(weights: map<string, real>, args: seq<string>,
                               parseFloat: string -> Option<real>): map<string, real>
  {
    var pr := WeightPairs(args, parseFloat);
    if |args| < 2 then weights
    else SetAll(weights, seq(|pr.entries|, k requires 0 <= k < |pr.entries| => Weight(args[1], pr.entries[k].value)))
  }

  /** `set_weights`, each pair's value stored under the pair's own name. */
  function SetWeightsFixed(weights: map<string, real>, args: seq<string>,
                           parseFloat: string -> Option<real>): map<string, real>
  {
    SetAll(weights, WeightPairs(args, parseFloat).entries)
  }

  /**
   * The directive `set_weights tm_pt_0 0.5`, as written, leaves `tm_pt_0`
   * alone and creates a feature named `0.5`.
   */
  lemma SetWeightsAsWrittenMissesTheName(weights: map<string, real>, name: string, value: string,
                                         parseFloat: string -> Option<real>, v: real)
    requires parseFloat(value) == Some(v) && name != value
    ensures SetWeightsAsWritten(weights, [name, value], parseFloat) == weights[value := v]
    ensures Get(SetWeightsAsWritten(weights, [name, value], parseFloat), name) == Get(weights, name)
  {
    assert [name, value][2..] == [];
    assert WeightPairs([name, value], parseFloat) == PairsRead([Weight(name, v)], None);
    var written := seq(1, k requires 0 <= k < 1 => Weight(value, v));
    assert written == [Weight(value, v)];
    assert written[..0] == [];
    assert SetAll(weights, written) == SetAll(weights, [])[value := v];
  }

  /** With the name fixed, each pair that is not overridden later sets its own name to its value. */
  lemma SetWeightsFixedSetsEachName(weights: map<string, real>, args: seq<string>,
                                    parseFloat: string -> Option<real>, k: nat)
    requires WeightPairs(args, parseFloat).error.None?
    requires 2 * k + 1 < |args|
    requires forall m :: k < m && 2 * m < |args| ==> args[2 * m] != args[2 * k]
    ensures args[2 * k] in SetWeightsFixed(weights, args, parseFloat)
    ensures Some(SetWeightsFixed(weights, args, parseFloat)[args[2 * k]]) == parseFloat(args[2 * k + 1])
  {
    WeightPairsAreArgumentPairs(args, parseFloat);
    var entries := WeightPairs(args, parseFloat).entries;
    LaterEntryWins(weights, entries, k);
  }

  lemma {:induction false} SetAllCons(weights: map<string, real>, w: Weight, rest: seq<Weight>)
    ensures SetAll(weights, [w] + rest) == SetAll(weights[w.name := w.value], rest)
    decreases |rest|
  {
    if rest == [] {
      assert [w] + rest == [w];
      assert [w][..0] == [];
    } else {
      SetAllCons(weights, w, rest[..|rest| - 1]);
      assert ([w] + rest)[..|rest|] == [w] + rest[..|rest| - 1];
    }
  }

  // ---------------------------------------------------------------------------
  // The custom phrase table

  /** The rule lists of the trie nodes that hold rules, by path from the root. */
  type RuleTrie = map<seq<int>, seq<Rule>>

  /** The root always exists; another node exists when some rule-holding node lies below it. */
  predicate HasNode(trie: RuleTrie, path: seq<int>) {
    path == [] || exists key :: key in trie && path <= key
  }

  /** `addRule`: the rule is appended to the rules of the node its source side leads to. */
  function Insert(trie: RuleTrie, rule: Rule): (t: RuleTrie)
    ensures rule.french in t && |t[rule.french]| >= 1 && t[rule.french][|t[rule.french]| - 1] == rule
    ensures rule.french in trie ==> t[rule.french][..|t[rule.french]| - 1] == trie[rule.french]
    ensures forall path :: path in trie && path != rule.french ==> path in t && t[path] == trie[path]
    ensures t.Keys == trie.Keys + {rule.french}
    ensures forall path :: HasNode(trie, path) ==> HasNode(t, path)
    ensures forall k :: 0 <= k <= |rule.french| ==> HasNode(t, rule.french[..k])
  {
    var old_rules := if rule.french in trie then trie[rule.french] else [];
    trie[rule.french := old_rules + [rule]]
  }

  /** The walk of `remove_rule`: follow each word's child if it exists, else stay put. */
  function Walk(trie: RuleTrie, path: seq<int>, ids: seq<int>): (end: seq<int>)
    ensures HasNode(trie, path) ==> HasNode(trie, end)
    ensures path <= end && |end| <= |path| + |ids|
    decreases |ids|
  {
    if ids == [] then path
    else
      var next := path + [ids[0]];
      Walk(trie, if HasNode(trie, next) then next else path, ids[1..])
  }

  /** Words that all lead to existing nodes are followed to the end. */
  lemma {:induction false} WalkFollowsExistingPath(trie: RuleTrie, path: seq<int>, ids: seq<int>)
    requires HasNode(trie, path + ids)
    ensures Walk(trie, path, ids) == path + ids
    decreases |ids|
  {
    if ids == [] {
      assert path + ids == path;
    } else {
      var next := path + [ids[0]];
      assert next + ids[1..] == path + ids;
      assert HasNode(trie, next) by {
        var key :| key in trie && path + ids <= key;
        assert next <= key;
      }
      WalkFollowsExistingPath(trie, next, ids[1..]);
    }
  }

  /** The position of the first `c` in `s`, or -1 (`String.indexOf`). */
  function IndexOf(s: string, c: char): (i: int)
    ensures -1 <= i < |s|
    ensures i == -1 <==> c !in s
    ensures i >= 0 ==> s[i] == c && c !in s[..i]
  {
    if s == [] then -1
    else if s[0] == c then 0
    else
      var i := IndexOf(s[1..], c);
      assert i >= 0 ==> s[1..][..i] == s[1..i + 1];
      if i == -1 then -1 else i + 1
  }

  /** The target side without its first token: everything after the first blank, or all of it. */
  function DropFirstToken(target: string): (r: string)
    ensures ' ' !in target ==> r == target
    ensures ' ' in target ==> exists k :: 0 <= k < |target| && target[k] == ' ' && r == target[k + 1..] && ' ' !in target[..k]
  {
    var i := IndexOf(target, ' ');
    target[i + 1..]
  }

  /** The index of the first rule whose target without its first token is `target`, or `|rules|`. */
  function FirstMatch(rules: seq<Rule>, target: string, englishWords: Rule -> string): (k: nat)
    ensures k <= |rules|
    ensures forall m :: 0 <= m < k ==> DropFirstToken(englishWords(rules[m])) != target
    ensures k < |rules| ==> DropFirstToken(englishWords(rules[k])) == target
  {
    if rules == [] then 0
    else if DropFirstToken(englishWords(rules[0])) == target then 0
    else 1 + FirstMatch(rules[1..], target, englishWords)
  }

  /** The search loop of `remove_rule` over the rules of one node. */
  method FindMatch(rules: seq<Rule>, target: string, englishWords: Rule -> string) returns (matched: nat)
    ensures matched == FirstMatch(rules, target, englishWords)
  {
    matched := 0;
    while matched < |rules| && DropFirstToken(englishWords(rules[matched])) != target
      invariant 0 <= matched <= |rules|
      invariant forall m :: 0 <= m < matched ==> DropFirstToken(englishWords(rules[m])) != target
    {
      matched := matched + 1;
    }
    FirstMatchIsFirst(rules, target, englishWords, matched);
  }

  lemma {:induction false} FirstMatchIsFirst(rules: seq<Rule>, target: string, englishWords: Rule -> string, k: nat)
    requires k <= |rules|
    requires forall m :: 0 <= m < k ==> DropFirstToken(englishWords(rules[m])) != target
    requires k < |rules| ==> DropFirstToken(englishWords(rules[k])) == target
    ensures k == FirstMatch(rules, target, englishWords)
  {
  }

  /** The list without its first matching rule; unchanged when no rule matches. */
  function RemoveFirstMatch(rules: seq<Rule>, target: string, englishWords: Rule -> string): seq<Rule> {
    var k := FirstMatch(rules, target, englishWords);
    if k < |rules| then rules[..k] + rules[k + 1..] else rules
  }

  /**
   * The list loses exactly one rule, the first matching one, when some rule
   * matches, and nothing otherwise; no rule is added.
   */
  lemma RemoveFirstMatchRemovesOne(rules: seq<Rule>, target: string, englishWords: Rule -> string)
    ensures var r := RemoveFirstMatch(rules, target, englishWords);
      && (|r| == |rules| || |r| == |rules| - 1)
      && (|r| == |rules| <==> forall m :: 0 <= m < |rules| ==> DropFirstToken(englishWords(rules[m])) != target)
      && (|r| == |rules| - 1 ==> exists k :: 0 <= k < |rules| && r == rules[..k] + rules[k + 1..]
                                    && DropFirstToken(englishWords(rules[k])) == target
                                    && forall m :: 0 <= m < k ==> DropFirstToken(englishWords(rules[m])) != target)
      && multiset(r) <= multiset(rules)
  {
    var k := FirstMatch(rules, target, englishWords);
    if k < |rules| {
      RemoveAtShrinks(rules, k);
      assert RemoveFirstMatch(rules, target, englishWords) == rules[..k] + rules[k + 1..];
    }
  }

  /** Dropping the element at `k` shortens the list by one and adds no element. */
  lemma RemoveAtShrinks<T>(s: seq<T>, k: nat)
    requires k < |s|
    ensures |s[..k] + s[k + 1..]| == |s| - 1
    ensures multiset(s[..k] + s[k + 1..]) <= multiset(s)
  {
    assert s == s[..k] + [s[k]] + s[k + 1..];
  }

  /** The search of `remove_rule` and the removal of the rule it finds, if any. */
  method RemoveMatch(rules: seq<Rule>, target: string, englishWords: Rule -> string)
    returns (found: bool, rest: seq<Rule>)
    ensures rest == RemoveFirstMatch(rules, target, englishWords)
    ensures !found ==> rest == rules
  {
    var matched := FindMatch(rules, target, englishWords);
    found := matched < |rules|;
    rest := if found then rules[..matched] + rules[matched + 1..] else rules;
  }

  /** The vocabulary ids of the blank-separated source words. */
  function SourceIds(source: string, vocab: string -> int): (ids: seq<int>)
    ensures |ids| == |SplitWs(source)|
  {
    var words := SplitWs(source);
    seq(|words|, k requires 0 <= k < |words| => vocab(words[k]))
  }

  /**
   * `remove_rule`: the walk starts at the child of the root for the default
   * nonterminal (an error when there is none); when the node reached holds
   * rules, the first one whose target matches is removed.
   */
  function RemoveRuleSpec(trie: RuleTrie, ntId: int, sourceIds: seq<int>, target: string,
                          englishWords: Rule -> string): Result<RuleTrie, string>
  {
    if !HasNode(trie, [ntId]) then Failure("NullPointerException: no rule under the default nonterminal")
    else
      var node := Walk(trie, [ntId], sourceIds);
      if node in trie && trie[node] != [] then
        Success(trie[node := RemoveFirstMatch(trie[node], target, englishWords)])
      else Success(trie)
  }

  /**
   * Adding a rule and then removing it by its own source words finds the node
   * it was added at. This needs the source side to start with the default
   * nonterminal, the form `add_rule` builds under "stack" search. Under any
   * other search algorithm the rule sits at its source words directly below
   * the root, and the `remove_rule` walk, which starts below the default
   * nonterminal's child, does not reach it.
   */
  lemma RemoveFindsAddedNode(trie: RuleTrie, rule: Rule, ntId: int, sourceIds: seq<int>)
    requires rule.french == [ntId] + sourceIds
    ensures HasNode(Insert(trie, rule), [ntId])
    ensures Walk(Insert(trie, rule), [ntId], sourceIds) == rule.french
  {
    assert rule.french[..1] == [ntId];
    assert rule.french[..|rule.french|] == rule.french;
    WalkFollowsExistingPath(Insert(trie, rule), [ntId], sourceIds);
  }

  /** The rule string `add_rule` builds; in phrase-based mode both sides get `[X,1]`. */
  function CustomRuleString(searchAlgorithm: string, source: string, target: string): (s: string)
    ensures searchAlgorithm == "stack" ==>
      StartsWith(s, "[X] ||| [X,1] " + source + " ||| [X,1] " + target + " ||| ")
    ensures searchAlgorithm != "stack" ==>
      StartsWith(s, "[X] ||| " + source + " ||| " + target + " ||| ")
    ensures EndsWith(s, " ||| custom=1 ")
  {
    var featureStr := "";
    var sides := if searchAlgorithm == "stack" then "[X] ||| [X,1] " + source + " ||| [X,1] " + target
                 else "[X] ||| " + source + " ||| " + target;
    var s := sides + " ||| custom=1 " + featureStr;
    assert s == sides + " ||| " + "custom=1 ";
    assert s[..|sides| + 5] == sides + " ||| ";
    assert s[|sides|..] == " ||| custom=1 ";
    s
  }

  /**
   * The loop of `readWeights`: each line of the weights file is parsed and
   * its value added to its name, until the first fatal line.
   */
  method IncrementByLines(start: map<string, real>, lines: seq<string>, moses: bool,
                          parseFloat: string -> Option<real>)
    returns (r: Outcome<string>, weights: map<string, real>)
    ensures r.Pass? <==> WeightFileEntries(lines, moses, parseFloat).error.None?
    ensures weights == IncrementAll(start, WeightFileEntries(lines, moses, parseFloat).entries)
  {
    weights := start;
    ghost var entries: seq<Weight> := [];
    for k := 0 to |lines|
      invariant WeightFileEntries(lines[..k], moses, parseFloat) == LinesRead(entries, None)
      invariant weights == IncrementAll(start, entries)
    {
      var parsed := ReadWeightLine(lines[k], moses, parseFloat);
      WeightFileEntriesSnoc(lines, k, moses, parseFloat);
      match parsed {
        case Skip =>
        case Invalid(reason) =>
          WeightFileErrorPersists(lines, k + 1, moses, parseFloat);
          return Fail(reason), weights;
        case Entry(w) =>
          IncrementAllSnoc(start, entries, w);
          weights := Increment(weights, w);
          entries := entries + [w];
      }
    }
    assert lines[..|lines|] == lines;
    return Pass, weights;
  }

  /**
   * The loop over the configuration's `weights` entries: each valid entry
   * sets its name to its value, until the first invalid entry.
   */
  method SetByLines(start: map<string, real>, pairs: seq<string>, parseFloat: string -> Option<real>)
    returns (r: Outcome<string>, weights: map<string, real>)
    ensures r.Pass? <==> ConfigWeightEntries(pairs, parseFloat).error.None?
    ensures weights == SetAll(start, ConfigWeightEntries(pairs, parseFloat).entries)
  {
    weights := start;
    ghost var entries: seq<Weight> := [];
    for k := 0 to |pairs|
      invariant ConfigWeightEntries(pairs[..k], parseFloat) == LinesRead(entries, None)
      invariant weights == SetAll(start, entries)
    {
      var parsed := ReadConfigWeightLine(pairs[k], parseFloat);
      ConfigWeightEntriesSnoc(pairs, k, parseFloat);
      match parsed {
        case Skip =>
        case Invalid(reason) =>
          ConfigErrorPersists(pairs, k + 1, parseFloat);
          return Fail(reason), weights;
        case Entry(w) =>
          SetAllSnoc(start, entries, w);
          weights := Assign(weights, w);
          entries := entries + [w];
      }
    }
    assert pairs[..|pairs|] == pairs;
    return Pass, weights;
  }

  /** A worker thread of the pool, known by its number. */
  datatype Worker = Worker(id: nat)

  /** A metadata directive: its type, its blank-separated tokens and its ` ,,, `-separated parts. */
  datatype MetaData = MetaData(kind: string, tokens: seq<string>, parts: seq<string>)

  /** The collaborators `handleMetadata` calls. */
  datatype Collaborators = Collaborators(
    parseFloat: string -> Option<real>,
    parseRule: string -> Rule,
    vocab: string -> int,
    englishWords: Rule -> string)

  class Decoder {
    /** `joshuaConfiguration.moses`, `.search_algorithm` and the id of `.default_non_terminal`. */
    const moses: bool
    const searchAlgorithm: string
    const defaultNonterminal: int

    var weights: map<string, real>
    var customRules: RuleTrie
    /** The queue of idle workers, head first. */
    var threadPool: seq<Worker>

    constructor (moses: bool, searchAlgorithm: string, defaultNonterminal: int, workers: seq<Worker>)
      ensures this.moses == moses && this.searchAlgorithm == searchAlgorithm
      ensures this.defaultNonterminal == defaultNonterminal
      ensures weights == map[] && customRules == map[] && threadPool == workers
    {
      this.moses, this.searchAlgorithm, this.defaultNonterminal := moses, searchAlgorithm, defaultNonterminal;
      weights, customRules, threadPool := map[], map[], workers;
    }

    /**
     * `readWeights`: the weights are reset, then every line of the file adds
     * its value to its name; the first fatal line stops the reading.
     */
    method ReadWeights(fileName: string, lines: seq<string>, parseFloat: string -> Option<real>)
      returns (r: Outcome<string>)
      modifies this
      ensures fileName == "" ==> r.Pass? && weights == map[]
      ensures fileName != "" ==>
        && (r.Pass? <==> WeightFileEntries(lines, moses, parseFloat).error.None?)
        && weights == IncrementAll(map[], WeightFileEntries(lines, moses, parseFloat).entries)
      ensures customRules == old(customRules) && threadPool == old(threadPool)
    {
      weights := map[];
      if fileName == "" {
        return Pass;
      }
      r, weights := IncrementByLines(map[], lines, moses, parseFloat);
    }

    /**
     * The `weights` entries of the configuration: each must split into exactly
     * two fields, and sets its name to its value over what is there already.
     */
    method ApplyConfigWeights(pairs: seq<string>, parseFloat: string -> Option<real>)
      returns (r: Outcome<string>)
      modifies this
      ensures r.Pass? <==> ConfigWeightEntries(pairs, parseFloat).error.None?
      ensures weights == SetAll(old(weights), ConfigWeightEntries(pairs, parseFloat).entries)
      ensures customRules == old(customRules) && threadPool == old(threadPool)
    {
      r, weights := SetByLines(weights, pairs, parseFloat);
    }

    /**
     * The `set_weights` directive, with each pair stored under its own name:
     * pairs are applied in order up to the first one that is missing its value
     * or whose value does not parse.
     */
    method SetWeights(args: seq<string>, parseFloat: string -> Option<real>) returns (r: Outcome<string>)
      modifies this
      ensures weights == SetWeightsFixed(old(weights), args, parseFloat)
      ensures r.Pass? <==> WeightPairs(args, parseFloat).error.None?
      ensures customRules == old(customRules) && threadPool == old(threadPool)
    {
      var i := 0;
      while i < |args|
        invariant 0 <= i <= |args|
        invariant SetAll(weights, WeightPairs(args[i..], parseFloat).entries)
               == SetAll(old(weights), WeightPairs(args, parseFloat).entries)
        invariant WeightPairs(args[i..], parseFloat).error == WeightPairs(args, parseFloat).error
        invariant customRules == old(customRules) && threadPool == old(threadPool)
      {
        if i + 1 >= |args| {
          return Fail("ArrayIndexOutOfBoundsException");
        }
        var value := parseFloat(args[i + 1]);
        if value.None? {
          return Fail("NumberFormatException: " + args[i + 1]);
        }
        assert args[i..][2..] == args[i + 2..];
        SetAllCons(weights, Weight(args[i], value.value), WeightPairs(args[i + 2..], parseFloat).entries);
        weights := weights[args[i] := value.value];
        i := i + 2;
      }
      return Pass;
    }

    /**
     * The `add_rule` directive: anything but exactly two ` ,,, `-separated
     * parts changes nothing; otherwise the rule built from the two sides
     * (with `[X,1]` prepended under phrase-based search) is added to the
     * custom table.
     */
    method AddRule(parts: seq<string>, parseRule: string -> Rule)
      modifies this
      ensures |parts| != 2 ==> customRules == old(customRules)
      ensures |parts| == 2 ==>
        customRules == Insert(old(customRules), parseRule(CustomRuleString(searchAlgorithm, parts[0], parts[1])))
      ensures weights == old(weights) && threadPool == old(threadPool)
    {
      if |parts| != 2 {
        return;
      }
      var ruleString := CustomRuleString(searchAlgorithm, parts[0], parts[1]);
      var rule := parseRule(ruleString);
      var rules := if rule.french in customRules then customRules[rule.french] else [];
      customRules := customRules[rule.french := rules + [rule]];
    }

    /**
     * The `remove_rule` directive: anything but exactly two parts changes
     * nothing; otherwise the source words are walked from the default
     * nonterminal's node, skipping words with no child, and the first rule
     * there whose target (without its first token) is the second part is
     * removed.
     */
    method RemoveRule(parts: seq<string>, vocab: string -> int, englishWords: Rule -> string)
      returns (r: Outcome<string>)
      modifies this
      ensures |parts| != 2 ==> r.Pass? && customRules == old(customRules)
      ensures |parts| == 2 ==>
        var spec := RemoveRuleSpec(old(customRules), defaultNonterminal, SourceIds(parts[0], vocab),
                                   parts[1], englishWords);
        && (r.Pass? <==> spec.Success?)
        && (spec.Success? ==> customRules == spec.value)
        && (spec.Failure? ==> customRules == old(customRules))
      ensures weights == old(weights) && threadPool == old(threadPool)
    {
      if |parts| != 2 {
        return Pass;
      }
      if !HasNode(customRules, [defaultNonterminal]) {
        return Fail("NullPointerException: no rule under the default nonterminal");
      }
      var trie := WalkWords(parts[0], vocab);
      if trie in customRules && customRules[trie] != [] {
        var found, rest := RemoveMatch(customRules[trie], parts[1], englishWords);
        if found {
          customRules := customRules[trie := rest];
        }
      }
      return Pass;
    }

    /** The walk of `remove_rule` over the source words, from the default nonterminal's node. */
    method WalkWords(source: string, vocab: string -> int) returns (trie: seq<int>)
      ensures trie == Walk(customRules, [defaultNonterminal], SourceIds(source, vocab))
    {
      var words := SplitWs(source);
      ghost var sourceIds := SourceIds(source, vocab);
      trie := [defaultNonterminal];
      for k := 0 to |words|
        invariant Walk(customRules, trie, sourceIds[k..]) == Walk(customRules, [defaultNonterminal], sourceIds)
      {
        assert sourceIds[k..][1..] == sourceIds[k + 1..];
        var id := vocab(words[k]);
        var nextTrie := trie + [id];
        if HasNode(customRules, nextTrie) {
          trie := nextTrie;
        }
      }
    }

    /** `handleMetadata`: the three editing directives; any other directive changes nothing. */
    method HandleMetadata(meta: MetaData, c: Collaborators) returns (r: Outcome<string>)
      modifies this
      ensures meta.kind == "set_weights" ==>
        && weights == SetWeightsFixed(old(weights), meta.tokens, c.parseFloat)
        && (r.Pass? <==> WeightPairs(meta.tokens, c.parseFloat).error.None?)
        && customRules == old(customRules)
      ensures meta.kind == "add_rule" ==>
        && r.Pass? && weights == old(weights)
        && (|meta.parts| == 2 ==> customRules == Insert(old(customRules),
              c.parseRule(CustomRuleString(searchAlgorithm, meta.parts[0], meta.parts[1]))))
        && (|meta.parts| != 2 ==> customRules == old(customRules))
      ensures meta.kind == "remove_rule" ==> weights == old(weights)
      ensures meta.kind == "remove_rule" && |meta.parts| == 2 ==>
        var spec := RemoveRuleSpec(old(customRules), defaultNonterminal, SourceIds(meta.parts[0], c.vocab),
                                   meta.parts[1], c.englishWords);
        && (r.Pass? <==> spec.Success?)
        && customRules == (if spec.Success? then spec.value else old(customRules))
      ensures meta.kind == "remove_rule" && |meta.parts| != 2 ==> r.Pass? && customRules == old(customRules)
      ensures meta.kind !in {"set_weights", "add_rule", "remove_rule"} ==>
        r.Pass? && weights == old(weights) && customRules == old(customRules)
      ensures threadPool == old(threadPool)
    {
      if meta.kind == "set_weights" {
        r := SetWeights(meta.tokens, c.parseFloat);
      } else if meta.kind == "add_rule" {
        AddRule(meta.parts, c.parseRule);
        r := Pass;
      } else if meta.kind == "remove_rule" {
        r := RemoveRule(meta.parts, c.vocab, c.englishWords);
      } else {
        r := Pass;
      }
    }

    /**
     * `decode(sentence)`: the worker at the head of the pool translates the
     * sentence. It is put back at the tail only when the translation returns
     * normally; when `translate` throws, the exception leaves `decode` and the
     * worker is lost to the pool.
     */
    method Decode<S, T, E>(sentence: S, translate: (Worker, S) -> Result<T, E>) returns (r: Result<T, E>)
      requires threadPool != []
      modifies this
      ensures r == translate(old(threadPool)[0], sentence)
      ensures r.Success? ==> threadPool == old(threadPool)[1..] + [old(threadPool)[0]]
      ensures r.Success? ==> multiset(threadPool) == multiset(old(threadPool))
      ensures r.Failure? ==> threadPool == old(threadPool)[1..]
      ensures r.Failure? ==> multiset(threadPool) == multiset(old(threadPool)) - multiset{old(threadPool)[0]}
      ensures weights == old(weights) && customRules == old(customRules)
    {
      var thread := threadPool[0];
      threadPool := threadPool[1..];
      assert old(threadPool) == [thread] + threadPool;
      r := translate(thread, sentence);
      if r.Success? {
        threadPool := threadPool + [thread];
      }
    }
  }
}
