/**
 * Feature names as the decoder exchanges them with the Moses tuners, and the
 * short printed form of a rule.
 *
 * Moses forbids underscores in dense feature names, so a Joshua name `tm_pt_0`
 * is shown as `tm-pt-0`; names read back from a Moses tuner (which may carry a
 * trailing `=`) are turned into Joshua names again.
 */
module DecoderNames {
  import opened Wrappers
  import opened Text
  import opened Rules

  /**
   * `demoses`: a Moses feature name back to a Joshua one. A name ending in `=`
   * loses every `=`; `OOV_Penalty` becomes `OOVPenalty`; otherwise a `tm-` or
   * `lm-` name has every `-` replaced by `_`.
   */
  function Demoses(feature: string): string {
    var noEq := if EndsWith(feature, "=") then RemoveChar(feature, '=') else feature;
    if noEq == "OOV_Penalty" then "OOVPenalty"
    else if StartsWith(noEq, "tm-") || StartsWith(noEq, "lm-") then ReplaceChar(noEq, '-', '_')
    else noEq
  }

  /** Removing every `=` from a name that ends in `=` leaves a name that does not. */
  lemma NoEqualsLeft(feature: string)
    ensures var noEq := if EndsWith(feature, "=") then RemoveChar(feature, '=') else feature;
            !EndsWith(noEq, "=") && |noEq| <= |feature| && (EndsWith(feature, "=") ==> '=' !in noEq)
  {
    if EndsWith(feature, "=") {
      var noEq := RemoveChar(feature, '=');
      if noEq != [] {
        assert noEq[|noEq| - 1] in noEq;
      }
    }
  }

  /**
   * The result is in Joshua form: it neither ends in `=` nor starts with
   * `tm-`/`lm-`, is never `OOV_Penalty`, and is no longer than the input.
   */
  lemma DemosesGivesJoshuaForm(feature: string)
    ensures var r := Demoses(feature);
            && |r| <= |feature|
            && !EndsWith(r, "=")
            && !StartsWith(r, "tm-") && !StartsWith(r, "lm-")
            && r != "OOV_Penalty"
            && (EndsWith(feature, "=") ==> '=' !in r)
  {
    NoEqualsLeft(feature);
    var noEq := if EndsWith(feature, "=") then RemoveChar(feature, '=') else feature;
    var r := Demoses(feature);
    EndsWithChar(r, '=');
    StartsWithChars(r, "tm-");
    StartsWithChars(r, "lm-");
    if noEq == "OOV_Penalty" {
      assert r == "OOVPenalty";
      assert r[0] == 'O' && r[|r| - 1] == 'y';
    } else if StartsWith(noEq, "tm-") || StartsWith(noEq, "lm-") {
      ReplaceDashGivesJoshuaForm(noEq);
    } else {
      assert r == noEq;
    }
  }

  /** The `tm-`/`lm-` branch of `demoses`: blanks are restored as underscores. */
  lemma ReplaceDashGivesJoshuaForm(noEq: string)
    requires StartsWith(noEq, "tm-") || StartsWith(noEq, "lm-")
    requires !EndsWith(noEq, "=")
    ensures var r := ReplaceChar(noEq, '-', '_');
            && r[0] != 'O' && r[2] == '_' && r[|r| - 1] != '='
            && ('=' !in noEq ==> '=' !in r)
  {
    var r := ReplaceChar(noEq, '-', '_');
    StartsWithChars(noEq, "tm-");
    StartsWithChars(noEq, "lm-");
    EndsWithChar(noEq, '=');
    assert r[0] == noEq[0];
    if '=' !in noEq {
      forall k | 0 <= k < |r|
        ensures r[k] != '='
      {
        assert noEq[k] in noEq;
      }
    }
  }

  /** A plain Joshua name (no `-`, no `=`, not `OOV_Penalty`) is returned as it is. */
  lemma DemosesKeepsPlainNames(feature: string)
    requires '-' !in feature && '=' !in feature && feature != "OOV_Penalty"
    ensures Demoses(feature) == feature
  {
    assert !EndsWith(feature, "=") by {
      if feature != [] { assert feature[|feature| - 1] in feature; }
    }
    assert !StartsWith(feature, "tm-") && !StartsWith(feature, "lm-") by {
      if |feature| >= 3 { assert feature[2] in feature; }
    }
  }

  /** `mosesize`: with the Moses flag set, `tm_`/`lm_` names get every `_` replaced by `-`. */
  function Mosesize(moses: bool, feature: string): (r: string)
    ensures |r| == |feature|
    ensures !moses ==> r == feature
    ensures moses && (StartsWith(feature, "tm_") || StartsWith(feature, "lm_")) ==>
      '_' !in r && (StartsWith(r, "tm-") || StartsWith(r, "lm-"))
    ensures !(StartsWith(feature, "tm_") || StartsWith(feature, "lm_")) ==> r == feature
  {
    if moses && (StartsWith(feature, "tm_") || StartsWith(feature, "lm_")) then
      var r := ReplaceChar(feature, '_', '-');
      assert r[0] == feature[0] && r[1] == feature[1] && r[2] == '-';
      r
    else feature
  }

  /** Replacing `_` by `-` and back is the identity on a name with no `-`. */
  lemma ReplaceBack(s: string)
    requires '-' !in s
    ensures ReplaceChar(ReplaceChar(s, '_', '-'), '-', '_') == s
  {
    var t := ReplaceChar(ReplaceChar(s, '_', '-'), '-', '_');
    assert forall k :: 0 <= k < |s| ==> t[k] == s[k];
  }

  /**
   * Round trip: a Joshua name written out for Moses and read back is unchanged,
   * for every name that uses no `-` or `=` of its own and is not `OOV_Penalty`.
   */
  lemma {:induction false} DemosesUndoesMosesize(moses: bool, feature: string)
    requires '-' !in feature && '=' !in feature && feature != "OOV_Penalty"
    ensures Demoses(Mosesize(moses, feature)) == feature
  {
    var m := Mosesize(moses, feature);
    if moses && (StartsWith(feature, "tm_") || StartsWith(feature, "lm_")) {
      EndsWithChar(m, '=');
      assert m[|m| - 1] != '=' by { assert feature[|feature| - 1] in feature; }
      assert m != "OOV_Penalty" by { assert m[0] != 'O'; }
      ReplaceBack(feature);
    } else {
      DemosesKeepsPlainNames(feature);
    }
  }

  /** A name already in Joshua form is left unchanged. */
  lemma DemosesFixesJoshuaNames(feature: string)
    requires !EndsWith(feature, "=") && feature != "OOV_Penalty"
    requires !StartsWith(feature, "tm-") && !StartsWith(feature, "lm-")
    ensures Demoses(feature) == feature
  {
  }

  /** Reading a name back twice changes nothing more than reading it once. */
  lemma {:induction false} DemosesIsIdempotent(feature: string)
    ensures Demoses(Demoses(feature)) == Demoses(feature)
  {
    DemosesGivesJoshuaForm(feature);
    DemosesFixesJoshuaNames(Demoses(feature));
  }

  // ---------------------------------------------------------------------------
  // The printed form of a rule

  function Tail<T>(xs: seq<T>): seq<T> {
    if xs == [] then [] else xs[1..]
  }

  /** Each string preceded by one blank, concatenated. */
  function SpaceEach(xs: seq<string>): string {
    if xs == [] then "" else SpaceEach(xs[..|xs| - 1]) + " " + xs[|xs| - 1]
  }

  lemma {:induction false} JoinSnoc(xs: seq<string>, x: string)
    requires xs != []
    ensures Join(" ", xs + [x]) == Join(" ", xs) + " " + x
    decreases |xs|
  {
    if |xs| == 1 {
      assert xs + [x] == [xs[0], x];
    } else {
      assert (xs + [x])[1..] == xs[1..] + [x];
      JoinSnoc(xs[1..], x);
    }
  }

  lemma {:induction false} SpaceEachIsJoin(xs: seq<string>)
    requires xs != []
    ensures SpaceEach(xs) == " " + Join(" ", xs)
    decreases |xs|
  {
    var init, last := xs[..|xs| - 1], xs[|xs| - 1];
    if init == [] {
      assert xs == [last];
    } else {
      SpaceEachIsJoin(init);
      JoinSnoc(init, last);
      assert init + [last] == xs;
      ConcatAssoc(" ", Join(" ", init), " " + last);
    }
  }

  lemma ConcatAssoc(a: string, b: string, c: string)
    ensures (a + b) + c == a + (b + c)
  {
  }

  lemma SpaceEachSnoc(xs: seq<string>, x: string)
    ensures SpaceEach(xs + [x]) == SpaceEach(xs) + " " + x
  {
    assert (xs + [x])[..|xs|] == xs;
  }

  /** The words of `ids[..k + 1]` after the first are those of `ids[..k]` and one more. */
  lemma SpelledTailSnoc(ids: seq<int>, word: int -> string, k: nat)
    requires 1 <= k < |ids|
    ensures Tail(Mapped(ids[..k + 1], word)) == Tail(Mapped(ids[..k], word)) + [word(ids[k])]
  {
    assert Mapped(ids[..k + 1], word) == Mapped(ids[..k], word) + [word(ids[k])];
  }

  /**
   * One side of `formatRule`: each word but the first is appended after a
   * blank, to a string that already spells `before` the same way.
   */
  method AppendSide(ruleString: string, ids: seq<int>, word: int -> string,
                    ghost before: seq<string>)
    returns (s: string)
    requires ruleString == SpaceEach(before)
    ensures s == SpaceEach(before + Tail(Mapped(ids, word)))
  {
    s := ruleString;
    var first := true;
    ghost var appended: seq<string> := [];
    assert before + appended == before;
    for k := 0 to |ids|
      invariant first <==> k == 0
      invariant appended == Tail(Mapped(ids[..k], word))
      invariant s == SpaceEach(before + appended)
    {
      if !first {
        var w := word(ids[k]);
        SpelledTailSnoc(ids, word, k);
        SpaceEachSnoc(before + appended, w);
        assert (before + appended) + [w] == before + (appended + [w]);
        s := s + " " + w;
        appended := appended + [w];
      } else {
        assert Tail(Mapped(ids[..1], word)) == [];
      }
      first := false;
    }
    assert ids[..|ids|] == ids;
  }

  /** The two joins `formatRule` relies on: appending `|||`, and dropping the leading blank. */
  lemma RuleStringSteps(source: seq<string>, target: seq<string>)
    ensures SpaceEach([] + source) + " |||" == SpaceEach(source + ["|||"])
    ensures SpaceEach(source + ["|||"] + target)[1..] == Join(" ", source + ["|||"] + target)
  {
    assert [] + source == source;
    SpaceEachSnoc(source, "|||");
    SpaceEachIsJoin(source + ["|||"] + target);
  }

  /**
   * `formatRule`: the source words and the target words, each side without its
   * first word, separated by `|||`, all joined by single blanks.
   */
  method FormatRule(rule: Rule, word: int -> string) returns (r: string)
    ensures r == Join(" ", Tail(Mapped(rule.french, word)) + ["|||"]
                           + Tail(Mapped(rule.english, word)))
  {
    ghost var source, target := Tail(Mapped(rule.french, word)), Tail(Mapped(rule.english, word));
    RuleStringSteps(source, target);
    var ruleString := AppendSide("", rule.french, word, []);
    ruleString := ruleString + " |||";
    ruleString := AppendSide(ruleString, rule.english, word, source + ["|||"]);
    r := ruleString[1..];
  }
}
