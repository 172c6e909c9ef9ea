/**
 * Feature weights as the decoder reads them: from a weights file (one
 * `NAME VALUE` per line, repeated names accumulate) and from the `weights`
 * entries of the configuration (exactly two fields, later entries override
 * earlier ones); and the rewriting of a configuration template with new
 * weights, as the tuner does it.
 *
 * Weights are a map from feature name to value; a name that is absent weighs
 * zero. `Float.parseFloat`, the `Regex` predicates and `Double.toString` are
 * parameters.
 */
module DecoderWeights {
  import opened Wrappers
  import opened Text
  import opened DecoderNames

  datatype Weight = Weight(name: string, value: real)

  /** What one input line contributes: nothing, one weight, or a fatal error. */
  datatype WeightLine = Skip | Entry(weight: Weight) | Invalid(reason: string)

  /** The weight a name has: its value, or zero when absent (`FeatureVector.getWeight`). */
  function Get(weights: map<string, real>, name: string): real {
    if name in weights then weights[name] else 0.0
  }

  // ---------------------------------------------------------------------------
  // Reading lines

  /**
   * A line of the weights file: white-space runs are collapsed; empty lines,
   * comments (`#`, `//`) and lines without a blank are skipped; otherwise the
   * first token is the name (converted back from Moses form if asked) and the
   * second its value. A missing second token or an unparsable value is fatal.
   */
  function ParseWeightFileLine(line: string, moses: bool, parseFloat: string -> Option<real>)
    : WeightLine
  {
    var collapsed := CollapseWs(line);
    if collapsed == "" || StartsWith(collapsed, "#") || StartsWith(collapsed, "//")
       || ' ' !in collapsed then
      Skip
    else
      var tokens := SplitWs(collapsed);
      if |tokens| < 2 then Invalid("ArrayIndexOutOfBoundsException")
      else match parseFloat(tokens[1])
        case None => Invalid("NumberFormatException: " + tokens[1])
        case Some(v) => Entry(Weight(if moses then Demoses(tokens[0]) else tokens[0], v))
  }

  /** A `weights` entry of the configuration: exactly two fields, the second a number. */
  function ParseConfigWeightLine(pairStr: string, parseFloat: string -> Option<real>): WeightLine {
    var pair := SplitWs(pairStr);
    if |pair| != 2 then Invalid("FATAL: Invalid feature weight line found in config file.")
    else match parseFloat(pair[1])
      case None => Invalid("NumberFormatException: " + pair[1])
      case Some(v) => Entry(Weight(pair[0], v))
  }

  /** The body of the `readWeights` loop for one line. */
  method ReadWeightLine(line: string, moses: bool, parseFloat: string -> Option<real>)
    returns (parsed: WeightLine)
    ensures parsed == ParseWeightFileLine(line, moses, parseFloat)
  {
    var collapsed := CollapseWs(line);
    if collapsed == "" || StartsWith(collapsed, "#") || StartsWith(collapsed, "//")
       || ' ' !in collapsed {
      return Skip;
    }
    var tokens := SplitWs(collapsed);
    if |tokens| < 2 {
      return Invalid("ArrayIndexOutOfBoundsException");
    }
    var feature := tokens[0];
    var value := parseFloat(tokens[1]);
    if value.None? {
      return Invalid("NumberFormatException: " + tokens[1]);
    }
    if moses {
      feature := Demoses(feature);
    }
    return Entry(Weight(feature, value.value));
  }

  /** The body of the loop over the configuration's `weights` entries, for one entry. */
  method ReadConfigWeightLine(pairStr: string, parseFloat: string -> Option<real>)
    returns (parsed: WeightLine)
    ensures parsed == ParseConfigWeightLine(pairStr, parseFloat)
  {
    var pair := SplitWs(pairStr);
    if |pair| != 2 {
      return Invalid("FATAL: Invalid feature weight line found in config file.");
    }
    var value := parseFloat(pair[1]);
    if value.None? {
      return Invalid("NumberFormatException: " + pair[1]);
    }
    return Entry(Weight(pair[0], value.value));
  }

  /**
   * What a configuration entry yields: an entry exactly when it splits into
   * two fields whose second is a number, and then the first field is the name
   * and the number the value.
   */
  lemma ConfigLineShape(pairStr: string, parseFloat: string -> Option<real>)
    ensures var pair := SplitWs(pairStr);
      && (ParseConfigWeightLine(pairStr, parseFloat).Entry? <==> |pair| == 2 && parseFloat(pair[1]).Some?)
      && (ParseConfigWeightLine(pairStr, parseFloat).Entry? ==>
            ParseConfigWeightLine(pairStr, parseFloat).weight == Weight(pair[0], parseFloat(pair[1]).value))
      && (ParseConfigWeightLine(pairStr, parseFloat).Invalid? <==> |pair| != 2 || parseFloat(pair[1]).None?)
  {
  }

  /** A configuration entry `NAME VALUE` sets `NAME` to the parsed value, or fails on the value. */
  lemma ConfigLineOfPair(name: string, sep: string, value: string, parseFloat: string -> Option<real>)
    requires name != [] && !HasSpace(name) && sep != [] && AllSpace(sep)
    requires value != [] && !HasSpace(value)
    ensures parseFloat(value).Some? ==>
      ParseConfigWeightLine(name + sep + value, parseFloat) == Entry(Weight(name, parseFloat(value).value))
    ensures parseFloat(value).None? ==>
      ParseConfigWeightLine(name + sep + value, parseFloat) == Invalid("NumberFormatException: " + value)
  {
    SplitWsOfPair(name, sep, value);
  }

  /**
   * A weights-file line `NAME VALUE`, whatever white space separates them,
   * contributes `NAME` (converted back from Moses form if asked) with the
   * parsed value, or is fatal on the value; unless `NAME` starts a comment.
   */
  lemma WeightFileLineOfPair(name: string, sep: string, value: string, moses: bool,
                             parseFloat: string -> Option<real>)
    requires name != [] && !HasSpace(name) && sep != [] && AllSpace(sep)
    requires value != [] && !HasSpace(value)
    requires name[0] != '#' && !StartsWith(name, "//")
    ensures parseFloat(value).Some? ==>
      ParseWeightFileLine(name + sep + value, moses, parseFloat)
        == Entry(Weight(if moses then Demoses(name) else name, parseFloat(value).value))
    ensures parseFloat(value).None? ==>
      ParseWeightFileLine(name + sep + value, moses, parseFloat) == Invalid("NumberFormatException: " + value)
  {
    var collapsed := name + " " + value;
    CollapseWsOfPair(name, sep, value);
    assert collapsed[|name|] == ' ';
    assert !StartsWith(collapsed, "#") by {
      assert collapsed[0] == name[0];
    }
    assert !StartsWith(collapsed, "//") by {
      if |name| >= 2 {
        assert collapsed[..2] == name[..2];
      }
    }
    SplitWsOfPair(name, [' '], value);
  }

  /**
   * A weights-file line with white space in front splits into an empty first
   * field, so the name is taken for the value: the line is fatal unless the
   * name itself parses as a number, and then the empty name receives it.
   */
  lemma WeightFileLineWithLeadingSpace(lead: string, name: string, sep: string, value: string,
                                        moses: bool, parseFloat: string -> Option<real>)
    requires lead != [] && AllSpace(lead)
    requires name != [] && !HasSpace(name) && sep != [] && AllSpace(sep)
    requires value != [] && !HasSpace(value)
    ensures parseFloat(name).None? ==>
      ParseWeightFileLine(lead + name + sep + value, moses, parseFloat) == Invalid("NumberFormatException: " + name)
    ensures parseFloat(name).Some? ==>
      ParseWeightFileLine(lead + name + sep + value, moses, parseFloat)
        == Entry(Weight(if moses then Demoses("") else "", parseFloat(name).value))
  {
    var rest := name + sep + value;
    assert lead + name + sep + value == lead + rest;
    CollapseWsOfRun(lead, rest);
    CollapseWsOfPair(name, sep, value);
    var collapsed := " " + (name + " " + value);
    assert collapsed[0] == ' ';
    assert collapsed == [' '] + name + [' '] + value;
    SplitWsOfLeadingRun([' '], name, [' '], value);
  }

  /** The weights read so far, and the error that stopped the reading, if any. */
  datatype LinesRead = LinesRead(entries: seq<Weight>, error: Option<string>)

  /** One more parsed line; nothing happens after an error. */
  function AddLine(before: LinesRead, parsed: WeightLine): LinesRead {
    if before.error.Some? then before
    else match parsed
      case Skip => before
      case Entry(w) => LinesRead(before.entries + [w], None)
      case Invalid(e) => LinesRead(before.entries, Some(e))
  }

  /** The weights of a weights file, in order, up to its first fatal line. */
  function WeightFileEntries(lines: seq<string>, moses: bool, parseFloat: string -> Option<real>)
    : LinesRead
  {
    if lines == [] then LinesRead([], None)
    else AddLine(WeightFileEntries(lines[..|lines| - 1], moses, parseFloat),
                 ParseWeightFileLine(lines[|lines| - 1], moses, parseFloat))
  }

  /** The configuration's `weights` entries, in order, up to the first invalid one. */
  function ConfigWeightEntries(pairs: seq<string>, parseFloat: string -> Option<real>): LinesRead {
    if pairs == [] then LinesRead([], None)
    else AddLine(ConfigWeightEntries(pairs[..|pairs| - 1], parseFloat),
                 ParseConfigWeightLine(pairs[|pairs| - 1], parseFloat))
  }

  /** Reading one more line of the weights file is one more `AddLine`. */
  lemma WeightFileEntriesSnoc(lines: seq<string>, k: nat, moses: bool, parseFloat: string -> Option<real>)
    requires k < |lines|
    ensures WeightFileEntries(lines[..k + 1], moses, parseFloat)
         == AddLine(WeightFileEntries(lines[..k], moses, parseFloat), ParseWeightFileLine(lines[k], moses, parseFloat))
  {
    assert lines[..k + 1][..k] == lines[..k];
  }

  /** Reading one more configuration entry is one more `AddLine`. */
  lemma ConfigWeightEntriesSnoc(pairs: seq<string>, k: nat, parseFloat: string -> Option<real>)
    requires k < |pairs|
    ensures ConfigWeightEntries(pairs[..k + 1], parseFloat)
         == AddLine(ConfigWeightEntries(pairs[..k], parseFloat), ParseConfigWeightLine(pairs[k], parseFloat))
  {
    assert pairs[..k + 1][..k] == pairs[..k];
  }

  /** Once a weights-file line is fatal, later lines change nothing. */
  lemma {:induction false} WeightFileErrorPersists(lines: seq<string>, k: nat, moses: bool,
                                                   parseFloat: string -> Option<real>)
    requires k <= |lines|
    requires WeightFileEntries(lines[..k], moses, parseFloat).error.Some?
    ensures WeightFileEntries(lines, moses, parseFloat) == WeightFileEntries(lines[..k], moses, parseFloat)
    decreases |lines| - k
  {
    if k < |lines| {
      assert lines[..k + 1][..k] == lines[..k];
      WeightFileErrorPersists(lines, k + 1, moses, parseFloat);
    } else {
      assert lines[..k] == lines;
    }
  }

  /** Once a configuration entry is invalid, later entries change nothing. */
  lemma {:induction false} ConfigErrorPersists(pairs: seq<string>, k: nat, parseFloat: string -> Option<real>)
    requires k <= |pairs|
    requires ConfigWeightEntries(pairs[..k], parseFloat).error.Some?
    ensures ConfigWeightEntries(pairs, parseFloat) == ConfigWeightEntries(pairs[..k], parseFloat)
    decreases |pairs| - k
  {
    if k < |pairs| {
      assert pairs[..k + 1][..k] == pairs[..k];
      ConfigErrorPersists(pairs, k + 1, parseFloat);
    } else {
      assert pairs[..k] == pairs;
    }
  }

  // ---------------------------------------------------------------------------
  // Accumulating and overriding

  /** `FeatureVector.increment`: the value is added to the name's current weight (zero if absent). */
  function Increment(weights: map<string, real>, w: Weight): map<string, real> {
    weights[w.name := Get(weights, w.name) + w.value]
  }

  /** `increment` for each weight in turn. */
  function IncrementAll(weights: map<string, real>, ws: seq<Weight>): map<string, real> {
    if ws == [] then weights
    else Increment(IncrementAll(weights, ws[..|ws| - 1]), ws[|ws| - 1])
  }

  /** `FeatureVector.set`: the name's weight becomes the value. */
  function Assign(weights: map<string, real>, w: Weight): map<string, real> {
    weights[w.name := w.value]
  }

  /** `set` for each weight in turn. */
  function SetAll(weights: map<string, real>, ws: seq<Weight>): map<string, real> {
    if ws == [] then weights
    else Assign(SetAll(weights, ws[..|ws| - 1]), ws[|ws| - 1])
  }

  lemma IncrementAllSnoc(weights: map<string, real>, ws: seq<Weight>, w: Weight)
    ensures IncrementAll(weights, ws + [w]) == Increment(IncrementAll(weights, ws), w)
  {
    assert (ws + [w])[..|ws|] == ws;
  }

  lemma SetAllSnoc(weights: map<string, real>, ws: seq<Weight>, w: Weight)
    ensures SetAll(weights, ws + [w]) == Assign(SetAll(weights, ws), w)
  {
    assert (ws + [w])[..|ws|] == ws;
  }

  /** The sum of the values given to `name`. */
  function SumFor(ws: seq<Weight>, name: string): real {
    if ws == [] then 0.0
    else SumFor(ws[..|ws| - 1], name) + (if ws[|ws| - 1].name == name then ws[|ws| - 1].value else 0.0)
  }

  /** Repeated names in the weights file add up: each name ends with the sum of its values. */
  lemma {:induction false} IncrementAllSums(weights: map<string, real>, ws: seq<Weight>, name: string)
    ensures Get(IncrementAll(weights, ws), name) == Get(weights, name) + SumFor(ws, name)
    decreases |ws|
  {
    if ws != [] {
      IncrementAllSums(weights, ws[..|ws| - 1], name);
    }
  }

  /** Accumulation creates exactly the names that occur. */
  lemma {:induction false} IncrementAllKeys(weights: map<string, real>, ws: seq<Weight>)
    ensures IncrementAll(weights, ws).Keys == weights.Keys + set w | w in ws :: w.name
    decreases |ws|
  {
    if ws != [] {
      var init := ws[..|ws| - 1];
      IncrementAllKeys(weights, init);
      assert ws == init + [ws[|ws| - 1]];
      assert (set w | w in ws :: w.name) == (set w | w in init :: w.name) + {ws[|ws| - 1].name};
    }
  }

  /** In the configuration a later entry overrides every earlier entry for the same name. */
  lemma {:induction false} LaterEntryWins(weights: map<string, real>, ws: seq<Weight>, k: nat)
    requires k < |ws|
    requires forall m :: k < m < |ws| ==> ws[m].name != ws[k].name
    ensures ws[k].name in SetAll(weights, ws)
    ensures SetAll(weights, ws)[ws[k].name] == ws[k].value
    decreases |ws|
  {
    if k < |ws| - 1 {
      LaterEntryWins(weights, ws[..|ws| - 1], k);
    }
  }

  /** Names no entry mentions keep their earlier weight. */
  lemma {:induction false} SetAllKeepsOthers(weights: map<string, real>, ws: seq<Weight>, name: string)
    requires forall m :: 0 <= m < |ws| ==> ws[m].name != name
    ensures Get(SetAll(weights, ws), name) == Get(weights, name)
    decreases |ws|
  {
    if ws != [] {
      SetAllKeepsOthers(weights, ws[..|ws| - 1], name);
    }
  }

  // ---------------------------------------------------------------------------
  // Rewriting a configuration template

  /** The fixed inputs of `writeConfigFile` and the helpers it calls. */
  datatype RewriteParams = RewriteParams(
    newWeights: Option<seq<real>>,
    newDiscriminativeModel: Option<string>,
    isCommentOrEmpty: string -> bool,
    isFloatingNumber: string -> bool,
    formatDouble: real -> string)

  /** One template line: copied, rewritten as a model line, or rejected. */
  datatype Rewrite = Copied(text: string) | Model(text: string) | BadLine(reason: string)

  /** A line that is neither a comment, nor empty, nor a `key = value` parameter. */
  predicate IsModelLine(line: string, p: RewriteParams) {
    var t := Trim(line);
    !p.isCommentOrEmpty(t) && '=' !in t
  }

  /** The fields kept before the weight; a discriminative model also gets its new file name. */
  function KeptFields(fds: seq<string>, discriminative: Option<string>): seq<string>
    requires fds != []
  {
    if discriminative.Some? && fds[0] == "discriminative" then
      [fds[0], discriminative.value] + (if |fds| >= 3 then fds[2..|fds| - 1] else [])
    else
      fds[..|fds| - 1]
  }

  /** Each field followed by one blank, concatenated (what the `StringBuffer` loops build). */
  function SpaceAfterEach(xs: seq<string>): string {
    if xs == [] then "" else SpaceAfterEach(xs[..|xs| - 1]) + xs[|xs| - 1] + " "
  }

  /** The model line as written is its fields joined by single blanks. */
  lemma {:induction false} SpaceAfterEachIsJoin(xs: seq<string>, w: string)
    ensures SpaceAfterEach(xs) + w == Join(" ", xs + [w])
    decreases |xs|
  {
    if xs != [] {
      var init := xs[..|xs| - 1];
      var x := xs[|xs| - 1];
      SpaceAfterEachIsJoin(init, x);
      JoinSnoc(init + [x], w);
      assert init + [x] == xs;
    }
  }

  /** A model line split into fields, `col` being the number of model lines before it. */
  function RewriteModel(fds: seq<string>, col: nat, p: RewriteParams): Rewrite {
    if fds == [] then BadLine("ArrayIndexOutOfBoundsException")
    else if !p.isFloatingNumber(fds[|fds| - 1]) then
      BadLine("last field is not a number; the field is: " + fds[|fds| - 1])
    else if p.newWeights.Some? && col >= |p.newWeights.value| then
      BadLine("ArrayIndexOutOfBoundsException")
    else
      var weight := if p.newWeights.Some? then p.formatDouble(p.newWeights.value[col])
                    else fds[|fds| - 1];
      Model(SpaceAfterEach(KeptFields(fds, p.newDiscriminativeModel)) + weight)
  }

  /** One template line, trimmed: copied, or rewritten as a model line. */
  function RewriteLine(line: string, col: nat, p: RewriteParams): (r: Rewrite)
    ensures r.Copied? <==> !IsModelLine(line, p)
  {
    var t := Trim(line);
    if p.isCommentOrEmpty(t) || '=' in t then Copied(t)
    else RewriteModel(SplitWs(t), col, p)
  }

  /** The lines written so far, the weights consumed, and the error that stopped it, if any. */
  datatype Rewriting = Rewriting(written: seq<string>, column: nat, error: Option<string>)

  /** One more template line; nothing happens after an error. */
  function Step(before: Rewriting, line: string, p: RewriteParams): Rewriting {
    if before.error.Some? then before
    else match RewriteLine(line, before.column, p)
      case Copied(t) => Rewriting(before.written + [t], before.column, None)
      case Model(t) =>
        Rewriting(before.written + [t], before.column + (if p.newWeights.Some? then 1 else 0), None)
      case BadLine(e) => Rewriting(before.written, before.column, Some(e))
  }

  function RewriteLines(lines: seq<string>, p: RewriteParams): Rewriting {
    if lines == [] then Rewriting([], 0, None)
    else Step(RewriteLines(lines[..|lines| - 1], p), lines[|lines| - 1], p)
  }

  /** The whole of `writeConfigFile`: all lines, then the check that every weight was used. */
  function WriteConfig(lines: seq<string>, p: RewriteParams): Rewriting {
    var done := RewriteLines(lines, p);
    if done.error.None? && p.newWeights.Some? && done.column != |p.newWeights.value| then
      done.(error := Some("number of models does not match number of weights"))
    else done
  }

  /** The number of model lines among `lines`. */
  function ModelCount(lines: seq<string>, p: RewriteParams): nat {
    if lines == [] then 0
    else ModelCount(lines[..|lines| - 1], p) + (if IsModelLine(lines[|lines| - 1], p) then 1 else 0)
  }

  /** Once a line has been rejected, later lines change nothing. */
  lemma {:induction false} ErrorPersists(lines: seq<string>, k: nat, p: RewriteParams)
    requires k <= |lines|
    requires RewriteLines(lines[..k], p).error.Some?
    ensures RewriteLines(lines, p) == RewriteLines(lines[..k], p)
    decreases |lines| - k
  {
    if k < |lines| {
      assert lines[..k + 1][..k] == lines[..k];
      ErrorPersists(lines, k + 1, p);
    } else {
      assert lines[..k] == lines;
    }
  }

  /** The value of `columnID` after `lines`: the model lines seen, when there are new weights. */
  function Column(lines: seq<string>, p: RewriteParams): nat {
    if p.newWeights.Some? then ModelCount(lines, p) else 0
  }

  /**
   * When no line is rejected, line `k` of the output is line `k` of the
   * template rewritten on its own, with the `ModelCount(lines[..k])`-th new
   * weight when it is a model line; the weights are consumed in order, one
   * per model line.
   */
  lemma RewriteLinesPerLine(lines: seq<string>, p: RewriteParams)
    requires RewriteLines(lines, p).error.None?
    ensures var out := RewriteLines(lines, p);
            && |out.written| == |lines|
            && out.column == Column(lines, p)
            && forall k :: 0 <= k < |lines| ==>
                 && !RewriteLine(lines[k], Column(lines[..k], p), p).BadLine?
                 && out.written[k] == RewriteLine(lines[k], Column(lines[..k], p), p).text
  {
    RewriteLinesCounts(lines, p);
    forall k | 0 <= k < |lines|
      ensures && !RewriteLine(lines[k], Column(lines[..k], p), p).BadLine?
              && RewriteLines(lines, p).written[k] == RewriteLine(lines[k], Column(lines[..k], p), p).text
    {
      LineRewrittenOnItsOwn(lines, k, p);
    }
  }

  /** Without an error, one line is written per template line and one weight used per model line. */
  lemma {:induction false} RewriteLinesCounts(lines: seq<string>, p: RewriteParams)
    requires RewriteLines(lines, p).error.None?
    ensures |RewriteLines(lines, p).written| == |lines|
    ensures RewriteLines(lines, p).column == Column(lines, p)
    decreases |lines|
  {
    if lines != [] {
      var init := lines[..|lines| - 1];
      var before := RewriteLines(init, p);
      assert before.error.None?;
      RewriteLinesCounts(init, p);
      StepWithoutError(before, lines[|lines| - 1], p);
    }
  }

  /**
   * The last template line is written after the others, rewritten with the
   * weight the model lines before it select.
   */
  lemma LastLine(lines: seq<string>, p: RewriteParams)
    requires lines != []
    requires RewriteLines(lines, p).error.None?
    ensures var init, last := lines[..|lines| - 1], lines[|lines| - 1];
            var r := RewriteLine(last, Column(init, p), p);
            && RewriteLines(init, p).error.None?
            && |RewriteLines(init, p).written| == |init|
            && !r.BadLine?
            && RewriteLines(lines, p).written == RewriteLines(init, p).written + [r.text]
  {
    var init := lines[..|lines| - 1];
    var before := RewriteLines(init, p);
    assert before.error.None?;
    RewriteLinesCounts(init, p);
    StepWithoutError(before, lines[|lines| - 1], p);
  }

  /** Output line `k` is template line `k` rewritten with the weight its position selects. */
  lemma {:induction false} LineRewrittenOnItsOwn(lines: seq<string>, k: nat, p: RewriteParams)
    requires k < |lines|
    requires RewriteLines(lines, p).error.None?
    ensures k < |RewriteLines(lines, p).written|
    ensures !RewriteLine(lines[k], Column(lines[..k], p), p).BadLine?
    ensures RewriteLines(lines, p).written[k] == RewriteLine(lines[k], Column(lines[..k], p), p).text
    decreases |lines|
  {
    LastLine(lines, p);
    if k < |lines| - 1 {
      LineRewrittenOnItsOwn(lines[..|lines| - 1], k, p);
      PrefixOfPrefix(lines, |lines| - 1, k);
    }
  }

  lemma PrefixOfPrefix<T>(s: seq<T>, n: nat, k: nat)
    requires k < n <= |s|
    ensures s[..n][..k] == s[..k] && s[..n][k] == s[k]
  {
  }

  /** A line that is not rejected adds its text and, when it is a model line, uses one weight. */
  lemma StepWithoutError(before: Rewriting, line: string, p: RewriteParams)
    requires before.error.None? && Step(before, line, p).error.None?
    ensures var r := RewriteLine(line, before.column, p);
            && !r.BadLine?
            && Step(before, line, p).written == before.written + [r.text]
            && Step(before, line, p).column
               == before.column + (if p.newWeights.Some? && IsModelLine(line, p) then 1 else 0)
  {
  }

  /** A successful rewrite with new weights used every one of them: one per model line. */
  lemma WriteConfigUsesEveryWeight(lines: seq<string>, p: RewriteParams)
    requires p.newWeights.Some?
    requires WriteConfig(lines, p).error.None?
    ensures ModelCount(lines, p) == |p.newWeights.value|
    ensures |WriteConfig(lines, p).written| == |lines|
  {
    RewriteLinesPerLine(lines, p);
  }

  /** A model line written with a new weight is its kept fields and that weight, blank-separated. */
  lemma ModelLineShape(line: string, col: nat, p: RewriteParams)
    requires RewriteLine(line, col, p).Model?
    ensures var fds := SplitWs(Trim(line));
            && fds != []
            && RewriteLine(line, col, p).text == Join(" ", KeptFields(fds, p.newDiscriminativeModel) + [
                 if p.newWeights.Some? then p.formatDouble(p.newWeights.value[col]) else fds[|fds| - 1]])
  {
    var fds := SplitWs(Trim(line));
    var weight := if p.newWeights.Some? then p.formatDouble(p.newWeights.value[col]) else fds[|fds| - 1];
    SpaceAfterEachIsJoin(KeptFields(fds, p.newDiscriminativeModel), weight);
  }

  /** Appends each field and a blank (the `StringBuffer` loops of `writeConfigFile`). */
  method AppendFields(sb: string, fields: seq<string>) returns (r: string)
    ensures r == sb + SpaceAfterEach(fields)
  {
    r := sb;
    for i := 0 to |fields|
      invariant r == sb + SpaceAfterEach(fields[..i])
    {
      assert fields[..i + 1][..i] == fields[..i];
      r := r + fields[i] + " ";
    }
    assert fields[..|fields|] == fields;
  }

  lemma {:induction false} SpaceAfterEachAppend(xs: seq<string>, ys: seq<string>)
    ensures SpaceAfterEach(xs + ys) == SpaceAfterEach(xs) + SpaceAfterEach(ys)
    decreases |ys|
  {
    if ys == [] {
      assert xs + ys == xs;
    } else {
      SpaceAfterEachAppend(xs, ys[..|ys| - 1]);
      assert (xs + ys)[..|xs + ys| - 1] == xs + ys[..|ys| - 1];
    }
  }

  lemma SpaceAfterEachPair(a: string, b: string)
    ensures SpaceAfterEach([a, b]) == a + " " + b + " "
  {
    assert [a, b][..1] == [a];
    assert [a][..0] == [];
    assert SpaceAfterEach([a]) == a + " ";
  }

  /**
   * The model-line branch of `writeConfigFile`: check the last field, copy the
   * kept fields each followed by a blank, then the next new weight (or the old
   * weight when there are no new weights).
   */
  method RewriteModelLine(fds: seq<string>, columnID: nat, p: RewriteParams) returns (r: Rewrite)
    ensures r == RewriteModel(fds, columnID, p)
  {
    if fds == [] {
      return BadLine("ArrayIndexOutOfBoundsException");
    }
    if !p.isFloatingNumber(fds[|fds| - 1]) {
      return BadLine("last field is not a number; the field is: " + fds[|fds| - 1]);
    }
    var newSent: string;
    if p.newDiscriminativeModel.Some? && fds[0] == "discriminative" {
      newSent := fds[0] + " " + p.newDiscriminativeModel.value + " ";
      var rest := if |fds| >= 3 then fds[2..|fds| - 1] else [];
      newSent := AppendFields(newSent, rest);
      SpaceAfterEachAppend([fds[0], p.newDiscriminativeModel.value], rest);
      SpaceAfterEachPair(fds[0], p.newDiscriminativeModel.value);
    } else {
      newSent := AppendFields("", fds[..|fds| - 1]);
    }
    if p.newWeights.Some? {
      if columnID >= |p.newWeights.value| {
        return BadLine("ArrayIndexOutOfBoundsException");
      }
      newSent := newSent + p.formatDouble(p.newWeights.value[columnID]);
    } else {
      newSent := newSent + fds[|fds| - 1];
    }
    r := Model(newSent);
  }

  /** One template line of `writeConfigFile`: trimmed, then copied or rewritten as a model line. */
  method RewriteTemplateLine(line: string, columnID: nat, p: RewriteParams) returns (r: Rewrite)
    ensures r == RewriteLine(line, columnID, p)
  {
    var t := Trim(line);
    if p.isCommentOrEmpty(t) || '=' in t {
      r := Copied(t);
    } else {
      r := RewriteModelLine(SplitWs(t), columnID, p);
    }
  }

  lemma RewriteLinesSnoc(lines: seq<string>, k: nat, p: RewriteParams)
    requires k < |lines|
    ensures RewriteLines(lines[..k + 1], p) == Step(RewriteLines(lines[..k], p), lines[k], p)
  {
    assert lines[..k + 1][..k] == lines[..k];
  }

  /**
   * `writeConfigFile`: the template's lines trimmed, each model line with its
   * weight replaced by the next new weight in order (the old one is kept when
   * there are no new weights), and an error for a non-numeric last field, for
   * running out of new weights, or for new weights left over at the end.
   */
  method WriteConfigFile(template: seq<string>, p: RewriteParams) returns (out: Rewriting)
    ensures out == WriteConfig(template, p)
  {
    var written: seq<string> := [];
    var columnID: nat := 0;
    for k := 0 to |template|
      invariant RewriteLines(template[..k], p) == Rewriting(written, columnID, None)
    {
      RewriteLinesSnoc(template, k, p);
      var rewritten := RewriteTemplateLine(template[k], columnID, p);
      match rewritten {
        case Copied(t) =>
          written := written + [t];
        case Model(newSent) =>
          written := written + [newSent];
          if p.newWeights.Some? {
            columnID := columnID + 1;
          }
        case BadLine(e) =>
          out := Rewriting(written, columnID, Some(e));
          ErrorPersists(template, k + 1, p);
          return;
      }
    }
    assert template[..|template|] == template;
    out := Rewriting(written, columnID, None);
    if p.newWeights.Some? && columnID != |p.newWeights.value| {
      out := out.(error := Some("number of models does not match number of weights"));
    }
  }
}
