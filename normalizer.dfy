/**
 * The label normaliser of `hansard/worker.py`: `preprocess` strips
 * parenthesised segments, cleanses, applies the misspelling dictionary,
 * cleanses again and hands over to `postprocess`, which applies the
 * ordered anchored prefix rewrites and strips whitespace.
 */
module Normalizer {
  import opened Text

  /** Applying `step` with each element of `steps` once, in order, each to the result of the previous one. */
  function Fold<R>(s: string, steps: seq<R>, step: (string, R) -> string): string
    decreases |steps|
  {
    if steps == [] then s else Fold(step(s, steps[0]), steps[1..], step)
  }

  /** Folding over two lists one after the other is folding over their concatenation. */
  lemma {:induction false} FoldAppend<R>(s: string, a: seq<R>, b: seq<R>, step: (string, R) -> string)
    ensures Fold(s, a + b, step) == Fold(Fold(s, a, step), b, step)
    decreases |a|
  {
    if a == [] {
      assert a + b == b;
    } else {
      assert (a + b)[0] == a[0] && (a + b)[1..] == a[1..] + b;
      FoldAppend(step(s, a[0]), a[1..], b, step);
    }
  }

  // ---------------------------------------------------------------------
  // The pre-correction `\([^()]+\)` -> '' (hansard/worker.py:12-15)
  // ---------------------------------------------------------------------

  predicate IsParen(c: char) {
    c == '(' || c == ')'
  }

  /** The length of the longest prefix of `s` without a parenthesis. */
  function PlainRun(s: string): (n: nat)
    ensures n <= |s|
    ensures forall k :: 0 <= k < n ==> !IsParen(s[k])
    ensures n < |s| ==> IsParen(s[n])
    decreases |s|
  {
    if s == [] || IsParen(s[0]) then 0 else 1 + PlainRun(s[1..])
  }

  /** The length of the group `\([^()]+\)` matches at the start of `s`, or 0 when it does not match there. */
  function GroupAt(s: string): (g: nat)
    ensures g <= |s|
  {
    if |s| > 0 && s[0] == '(' then
      var n := PlainRun(s[1..]);
      if n >= 1 && n + 1 < |s| && s[n + 1] == ')' then n + 2 else 0
    else 0
  }

  /** `re.sub(r'\([^()]+\)', '', s)`: one left-to-right pass deleting every match. */
  function StripParens(s: string): (r: string)
    ensures |r| <= |s|
    decreases |s|
  {
    if s == [] then []
    else
      var g := GroupAt(s);
      if g > 0 then StripParens(s[g..]) else [s[0]] + StripParens(s[1..])
  }

  /** `s[i..j+1]` is a non-empty parenthesised segment with no parenthesis inside. */
  predicate GroupBetween(s: string, i: int, j: int) {
    0 <= i && i + 2 <= j < |s| && s[i] == '(' && s[j] == ')'
    && forall k :: i < k < j ==> !IsParen(s[k])
  }

  ghost predicate HasGroup(s: string) {
    exists i, j :: GroupBetween(s, i, j)
  }

  /** A group starting at index 0 is exactly what `GroupAt` recognises. */
  lemma GroupAtStart(s: string, j: int)
    requires GroupBetween(s, 0, j)
    ensures GroupAt(s) == j + 1
  {
    assert s[1..][j - 1] == s[j];
  }

  lemma {:induction false} NoGroupUnchanged(s: string)
    requires !HasGroup(s)
    ensures StripParens(s) == s
    decreases |s|
  {
    if s != [] {
      var g := GroupAt(s);
      if g > 0 {
        assert GroupBetween(s, 0, g - 1) by {
          var n := PlainRun(s[1..]);
          forall k | 0 < k < g - 1 ensures !IsParen(s[k]) {
            assert s[k] == s[1..][k - 1];
          }
        }
        assert false;
      }
      if HasGroup(s[1..]) {
        var i, j :| GroupBetween(s[1..], i, j);
        assert GroupBetween(s, i + 1, j + 1) by {
          forall k | i + 1 < k < j + 1 ensures !IsParen(s[k]) {
            assert s[k] == s[1..][k - 1];
          }
        }
        assert false;
      }
      NoGroupUnchanged(s[1..]);
      assert s == [s[0]] + s[1..];
    }
  }

  lemma {:induction false} GroupShrinks(s: string, i: int, j: int)
    requires GroupBetween(s, i, j)
    ensures |StripParens(s)| < |s|
    decreases i
  {
    if GroupAt(s) == 0 {
      if i == 0 {
        GroupAtStart(s, j);
        assert false;
      }
      assert GroupBetween(s[1..], i - 1, j - 1) by {
        forall k | i - 1 < k < j - 1 ensures !IsParen(s[1..][k]) {
          assert s[1..][k] == s[k + 1];
        }
      }
      GroupShrinks(s[1..], i - 1, j - 1);
    }
  }

  /** The parenthesis pass leaves a label unchanged exactly when it has no non-empty, paren-free group. */
  lemma StripParensUnchanged(s: string)
    ensures StripParens(s) == s <==> !HasGroup(s)
  {
    if HasGroup(s) {
      var i, j :| GroupBetween(s, i, j);
      GroupShrinks(s, i, j);
    } else {
      NoGroupUnchanged(s);
    }
  }

  /** A parenthesis ends the run, so what follows it does not change the run before it. */
  lemma {:induction false} PlainRunAppend(x: string, t: string)
    requires t != [] && IsParen(t[0])
    ensures PlainRun(x + t) == PlainRun(x)
    decreases |x|
  {
    if x == [] {
      assert x + t == t;
    } else {
      assert (x + t)[0] == x[0] && (x + t)[1..] == x[1..] + t;
      if !IsParen(x[0]) {
        PlainRunAppend(x[1..], t);
      }
    }
  }

  /** A group starting inside `a` cannot reach past a parenthesis that follows `a`. */
  lemma GroupAtAppend(a: string, t: string)
    requires a != [] && t != [] && t[0] == '('
    ensures GroupAt(a + t) == GroupAt(a)
  {
    var s := a + t;
    assert s[0] == a[0];
    if a[0] == '(' {
      assert s[1..] == a[1..] + t;
      PlainRunAppend(a[1..], t);
      var n := PlainRun(a[1..]);
      if n + 1 < |a| {
        assert s[n + 1] == a[n + 1];
      } else {
        assert s[n + 1] == t[0];
      }
    }
  }

  /** The pass over `a + t`, where `t` starts a new group candidate, is the pass over `a` then over `t`. */
  lemma {:induction false} StripParensAppend(a: string, t: string)
    requires t != [] && t[0] == '('
    ensures StripParens(a + t) == StripParens(a) + StripParens(t)
    decreases |a|
  {
    if a == [] {
      assert a + t == t;
    } else {
      var s := a + t;
      GroupAtAppend(a, t);
      var g := GroupAt(a);
      if g > 0 {
        assert s[g..] == a[g..] + t;
        StripParensAppend(a[g..], t);
      } else {
        assert s[1..] == a[1..] + t;
        StripParensAppend(a[1..], t);
      }
    }
  }

  /** A label made of paren-free characters is one plain run. */
  lemma PlainRunOfPlain(w: string)
    requires forall k :: 0 <= k < |w| ==> !IsParen(w[k])
    ensures PlainRun(w) == |w|
  {
  }

  /** A non-empty paren-free group at the start is matched with its full length. */
  lemma GroupAtOfGroup(w: string, b: string)
    requires |w| >= 1 && forall k :: 0 <= k < |w| ==> !IsParen(w[k])
    ensures GroupAt("(" + w + ")" + b) == |w| + 2
  {
    var t := "(" + w + ")" + b;
    assert t[1..] == w + (")" + b);
    PlainRunAppend(w, ")" + b);
    PlainRunOfPlain(w);
    assert t[|w| + 1] == ')';
  }

  /** The pass deletes a leading group and carries on after it. */
  lemma StripParensOfGroup(w: string, b: string)
    requires |w| >= 1 && forall k :: 0 <= k < |w| ==> !IsParen(w[k])
    ensures StripParens("(" + w + ")" + b) == StripParens(b)
  {
    var t := "(" + w + ")" + b;
    GroupAtOfGroup(w, b);
    assert t[|w| + 2..] == b;
  }

  /**
   * Every non-empty group without inner parentheses is deleted, wherever it
   * stands: the pass over `a (w) b` is the pass over `a` followed by the
   * pass over `b`.
   */
  lemma StripParensDropsGroup(a: string, w: string, b: string)
    requires |w| >= 1 && forall k :: 0 <= k < |w| ==> !IsParen(w[k])
    ensures StripParens(a + "(" + w + ")" + b) == StripParens(a) + StripParens(b)
  {
    var t := "(" + w + ")" + b;
    assert a + "(" + w + ")" + b == a + t;
    StripParensAppend(a, t);
    StripParensOfGroup(w, b);
  }

  /** An empty pair survives the pass: the pattern needs at least one character inside. */
  lemma EmptyPairSurvives()
    ensures StripParens("()") == "()"
  {
    assert PlainRun(")") == 0;
    assert GroupAt("()") == 0;
    assert "()"[1..] == ")";
    assert GroupAt(")") == 0;
    assert ")"[1..] == [];
  }

  lemma StripParensOfTails()
    ensures StripParens(")") == ")" && StripParens("b)") == "b)"
  {
    assert PlainRun(")") == 0 && PlainRun("b)") == 1;
    assert ")"[1..] == [] && GroupAt(")") == 0;
    assert "b)"[1..] == ")" && GroupAt("b)") == 0;
  }

  lemma StripParensOfInnerGroups()
    ensures StripParens("(a))") == ")" && StripParens("(a)b)") == "b)"
  {
    StripParensOfTails();
    assert PlainRun("a))") == 1 && PlainRun("a)b)") == 1;
    assert "(a))"[1..] == "a))" && GroupAt("(a))") == 3 && "(a))"[3..] == ")";
    assert "(a)b)"[1..] == "a)b)" && GroupAt("(a)b)") == 3 && "(a)b)"[3..] == "b)";
  }

  /** Only the innermost group of nested parentheses is removed by the one pass. */
  lemma NestedGroupsOnePass()
    ensures StripParens("((a))") == "()"
  {
    StripParensOfInnerGroups();
    assert PlainRun("(a))") == 0;
    assert "((a))"[1..] == "(a))" && GroupAt("((a))") == 0;
  }

  /** A group that encloses another disappears only on a second pass. */
  lemma NestedGroupNeedsSecondPass()
    ensures StripParens("((a)b)") == "(b)" && StripParens("(b)") == ""
  {
    StripParensOfInnerGroups();
    assert PlainRun("(a)b)") == 0 && PlainRun("b)") == 1;
    assert "((a)b)"[1..] == "(a)b)" && GroupAt("((a)b)") == 0;
    assert "(b)"[1..] == "b)" && GroupAt("(b)") == 3 && "(b)"[3..] == [];
  }

  // ---------------------------------------------------------------------
  // The post-corrections (hansard/worker.py:17-51) and `postprocess`
  // ---------------------------------------------------------------------

  /** The rule `^word +` -> `repl`: `word` and one or more blanks at the start are replaced. */
  datatype Rule = Rule(word: string, repl: string)

  /** The rules for the eight misspellings of a leading "the" (hansard/worker.py:19-27). */
  const MisspellingRules: seq<Rule> := [
    Rule("this", "the "), Rule("thr", "the "), Rule("then", "the "), Rule("tee", "the "),
    Rule("thh", "the "), Rule("tue", "the "), Rule("tmk", "the "), Rule("tub", "the ")
  ]

  /** `^the +` -> '' (hansard/worker.py:29). */
  const TheRule: Rule := Rule("the", "")

  /** `^me +` -> 'mr ' (hansard/worker.py:31), the first of the honorific fixes. */
  const MeRule := Rule("me", "mr ")

  /** The honorific fixes after it (hansard/worker.py:33-48), including the repeated "sin" rule. */
  const LaterHonorificRules: seq<Rule> := [
    Rule("lerd", "lord "), Rule("lobd", "lord "),
    Rule("earb", "earl "),
    Rule("dike", "duke "),
    Rule("sib", "sir "), Rule("sin", "sir "), Rule("sin", "sir "), Rule("sit", "sir "),
    Rule("sip", "sir "), Rule("siu", "sir "), Rule("sik", "sir "), Rule("sat", "sir ")
  ]

  const HonorificRules: seq<Rule> := [MeRule] + LaterHonorificRules

  /** `REGEX_POST_CORRECTIONS`, in list order. */
  const PostCorrections: seq<Rule> := MisspellingRules + [TheRule] + HonorificRules

  /** The ` +` part of a rule: drops the blanks (U+0020 only) at the start. */
  function DropBlanks(s: string): (r: string)
    ensures |r| <= |s|
    ensures r == [] || r[0] != ' '
    decreases |s|
  {
    if |s| > 0 && s[0] == ' ' then DropBlanks(s[1..]) else s
  }

  /** `DropBlanks` keeps a suffix of its input and removes only blanks before it. */
  lemma {:induction false} DropBlanksRemovesBlanks(s: string)
    ensures DropBlanks(s) == s[|s| - |DropBlanks(s)|..]
    ensures forall k :: 0 <= k < |s| - |DropBlanks(s)| ==> s[k] == ' '
    decreases |s|
  {
    if |s| > 0 && s[0] == ' ' {
      DropBlanksRemovesBlanks(s[1..]);
      assert s[1..][|s| - 1 - |DropBlanks(s)|..] == s[|s| - |DropBlanks(s)|..];
      assert forall k :: 1 <= k < |s| - |DropBlanks(s)| ==> s[k] == s[1..][k - 1];
    }
  }

  predicate Fires(s: string, rule: Rule) {
    rule.word + " " <= s
  }

  /** `re.sub('^word +', repl, s)`. The anchor matches only at the start, so a rule fires at most once. */
  function ApplyRule(s: string, rule: Rule): (r: string)
    ensures !Fires(s, rule) ==> r == s
    ensures Fires(s, rule) ==> rule.repl <= r
    ensures |rule.repl| <= |rule.word| + 1 ==> |r| <= |s|
  {
    if Fires(s, rule) then rule.repl + DropBlanks(s[|rule.word|..]) else s
  }

  /** The loop over the rule list, before the final strip. */
  function ApplyPostCorrections(s: string): string {
    Fold(s, PostCorrections, ApplyRule)
  }

  /** `postprocess`: every rule once in list order, then `strip()`; the result has no whitespace at either end. */
  function Postprocess(s: string): (r: string)
    ensures Trimmed(r)
  {
    Strip(ApplyPostCorrections(s))
  }

  function Blanks(n: nat): (b: string)
    ensures |b| == n
  {
    if n == 0 then [] else [' '] + Blanks(n - 1)
  }

  lemma {:induction false} DropBlanksOf(n: nat, rest: string)
    requires rest == [] || rest[0] != ' '
    ensures DropBlanks(Blanks(n) + rest) == rest
  {
    if n == 0 {
      assert Blanks(n) + rest == rest;
    } else {
      DropBlanksOf(n - 1, rest);
      DropLeadingBlank(Blanks(n - 1) + rest);
      assert Blanks(n) + rest == [' '] + (Blanks(n - 1) + rest);
    }
  }

  lemma DropLeadingBlank(t: string)
    ensures DropBlanks([' '] + t) == DropBlanks(t)
  {
    assert ([' '] + t)[1..] == t;
  }

  /** A rule on its word and any run of blanks replaces the word and the whole run, and keeps the rest as it is. */
  lemma ApplyRuleOn(rule: Rule, n: nat, rest: string)
    requires n >= 1 && (rest == [] || rest[0] != ' ')
    ensures ApplyRule(rule.word + Blanks(n) + rest, rule) == rule.repl + rest
  {
    var s := rule.word + Blanks(n) + rest;
    assert Blanks(n) == [' '] + Blanks(n - 1);
    assert Fires(s, rule) by {
      assert s[..|rule.word| + 1] == rule.word + " ";
    }
    assert s[|rule.word|..] == Blanks(n) + rest;
    DropBlanksOf(n, rest);
  }

  /**
   * When `s` starts with the word `t` and a blank, a rule whose word has no
   * blank fires on `s` exactly when its word is `t`.
   */
  lemma FiresIffWord(s: string, t: string, rule: Rule)
    requires t + " " <= s && ' ' !in t && ' ' !in rule.word
    ensures Fires(s, rule) <==> rule.word == t
  {
    var w := rule.word;
    assert forall k :: 0 <= k < |t| ==> s[k] == (t + " ")[k] == t[k];
    assert s[|t|] == (t + " ")[|t|] == ' ';
    assert Fires(s, rule) ==> s[|w|] == (w + " ")[|w|] == ' ';
    assert Fires(s, rule) ==> |w| >= |t|;
    assert Fires(s, rule) ==> w == (w + " ")[..|w|] == s[..|w|];
    assert w == t ==> w + " " == s[..|t| + 1];
  }

  /** Rules whose words are not the leading word of `s` leave it unchanged. */
  lemma {:induction false} FoldSkipsOtherWords(s: string, t: string, rules: seq<Rule>)
    requires t + " " <= s && ' ' !in t
    requires forall r :: r in rules ==> ' ' !in r.word && r.word != t
    ensures Fold(s, rules, ApplyRule) == s
    decreases |rules|
  {
    if rules != [] {
      FiresIffWord(s, t, rules[0]);
      FoldSkipsOtherWords(s, t, rules[1..]);
    }
  }

  predicate DistinctWords(rules: seq<Rule>) {
    forall a, b :: 0 <= a < b < |rules| ==> rules[a].word != rules[b].word
  }

  /**
   * Over rules with distinct blank-free words that all rewrite to "the ",
   * a string starting with one of those words and a blank comes out as
   * "the " followed by what came after the blanks.
   */
  lemma {:induction false} FoldRewritesToThe(s: string, t: string, rules: seq<Rule>)
    requires t + " " <= s && ' ' !in t
    requires exists i :: 0 <= i < |rules| && rules[i].word == t
    requires DistinctWords(rules)
    requires forall r :: r in rules ==> ' ' !in r.word && r.word != "the" && r.repl == "the "
    ensures Fold(s, rules, ApplyRule) == "the " + DropBlanks(s[|t|..])
    decreases |rules|
  {
    FiresIffWord(s, t, rules[0]);
    if rules[0].word == t {
      var u := "the " + DropBlanks(s[|t|..]);
      assert "the" + " " <= u;
      forall r | r in rules[1..] ensures ' ' !in r.word && r.word != "the" {
      }
      FoldSkipsOtherWords(u, "the", rules[1..]);
    } else {
      FoldRewritesToThe(s, t, rules[1..]);
    }
  }

  lemma MisspellingWordsDistinct()
    ensures DistinctWords(MisspellingRules)
  {
  }

  lemma MisspellingRulesShape()
    ensures DistinctWords(MisspellingRules)
    ensures forall r :: r in MisspellingRules ==> ' ' !in r.word && r.word != "the" && r.repl == "the "
  {
    MisspellingWordsDistinct();
  }

  /** A rule list of that shape turns any of its words followed by blanks into "the ". */
  lemma RewritesToTheOn(rules: seq<Rule>, i: nat, n: nat, rest: string)
    requires i < |rules| && n >= 1 && (rest == [] || rest[0] != ' ')
    requires DistinctWords(rules)
    requires forall r :: r in rules ==> ' ' !in r.word && r.word != "the" && r.repl == "the "
    ensures Fold(rules[i].word + Blanks(n) + rest, rules, ApplyRule) == "the " + rest
  {
    var w := rules[i].word;
    var tail := Blanks(n) + rest;
    var s := w + tail;
    assert s == w + Blanks(n) + rest;
    assert tail[0] == ' ' by {
      assert Blanks(n) == [' '] + Blanks(n - 1);
    }
    assert w + " " <= s by {
      assert s[..|w| + 1] == w + [tail[0]];
    }
    assert rules[i] in rules;
    FoldRewritesToThe(s, w, rules);
    assert s[|w|..] == tail;
    DropBlanksOf(n, rest);
  }

  /** The eight misspelling rules turn a leading misspelt "the" and its blanks into "the ". */
  lemma MisspellingRulesOn(i: nat, n: nat, rest: string)
    requires i < |MisspellingRules| && n >= 1 && (rest == [] || rest[0] != ' ')
    ensures Fold(MisspellingRules[i].word + Blanks(n) + rest, MisspellingRules, ApplyRule) == "the " + rest
  {
    MisspellingRulesShape();
    RewritesToTheOn(MisspellingRules, i, n, rest);
  }

  /** The rule `^the +` -> '' removes "the " from a rest that does not start with a blank. */
  lemma TheRuleOn(rest: string)
    requires rest == [] || rest[0] != ' '
    ensures ApplyRule("the " + rest, TheRule) == rest
  {
    var u := "the " + rest;
    assert Fires(u, TheRule) by {
      assert u[..4] == "the ";
    }
    assert u[3..] == " " + rest;
    DropOneBlank(rest);
  }

  /**
   * A leading misspelt "the" and the blanks after it are removed entirely
   * by the first nine rules, so the honorific rules see only `rest`.
   */
  lemma MisspelledTheRemoved(i: nat, n: nat, rest: string)
    requires i < |MisspellingRules| && n >= 1 && (rest == [] || rest[0] != ' ')
    ensures Fold(MisspellingRules[i].word + Blanks(n) + rest, MisspellingRules + [TheRule], ApplyRule) == rest
    ensures Postprocess(MisspellingRules[i].word + Blanks(n) + rest) == Strip(Fold(rest, HonorificRules, ApplyRule))
  {
    var s := MisspellingRules[i].word + Blanks(n) + rest;
    var theRules := MisspellingRules + [TheRule];
    MisspellingRulesOn(i, n, rest);
    TheRuleOn(rest);
    FoldAppend(s, MisspellingRules, [TheRule], ApplyRule);
    assert Fold("the " + rest, [TheRule], ApplyRule) == rest by {
      assert [TheRule][1..] == [];
    }
    assert Fold(s, theRules, ApplyRule) == rest;
    FoldAppend(s, theRules, HonorificRules, ApplyRule);
    assert PostCorrections == theRules + HonorificRules;
    assert ApplyPostCorrections(s) == Fold(rest, HonorificRules, ApplyRule);
  }

  /** The three stages of the rule list: the misspellings of "the", then `^the +`, then the honorifics. */
  lemma PostCorrectionStages(s: string)
    ensures ApplyPostCorrections(s)
         == Fold(ApplyRule(Fold(s, MisspellingRules, ApplyRule), TheRule), HonorificRules, ApplyRule)
  {
    var m := Fold(s, MisspellingRules, ApplyRule);
    FoldAppend(s, MisspellingRules, [TheRule], ApplyRule);
    assert Fold(m, [TheRule], ApplyRule) == ApplyRule(m, TheRule) by {
      assert [TheRule][1..] == [];
    }
    FoldAppend(s, MisspellingRules + [TheRule], HonorificRules, ApplyRule);
  }

  /** A label that starts with a correctly spelt "the" passes the misspelling rules untouched. */
  lemma MisspellingRulesSkipThe(rest: string)
    ensures Fold("the " + rest, MisspellingRules, ApplyRule) == "the " + rest
  {
    MisspellingRulesShape();
    assert "the" + " " <= "the " + rest;
    FoldSkipsOtherWords("the " + rest, "the", MisspellingRules);
  }

  lemma HonorificWordsBlankFree()
    ensures forall r :: r in HonorificRules ==> ' ' !in r.word
  {
  }

  lemma HonorificWordsNotThe()
    ensures forall r :: r in HonorificRules ==> |r.word| >= 2 && r.word != "the"
  {
  }

  lemma LaterHonorificWordsNotMr()
    ensures forall r :: r in LaterHonorificRules ==> |r.word| >= 3
  {
  }

  lemma LeadingTheStages(u: string)
    requires u == [] || u[0] != ' '
    ensures Fold(ApplyRule(Fold("the " + u, MisspellingRules, ApplyRule), TheRule), HonorificRules, ApplyRule)
         == Fold(u, HonorificRules, ApplyRule)
  {
    MisspellingRulesSkipThe(u);
    TheRuleOn(u);
  }

  /** A leading "the " is removed and the honorific rules see only what follows it. */
  lemma LeadingTheRemoved(u: string)
    requires u == [] || u[0] != ' '
    ensures ApplyPostCorrections("the " + u) == Fold(u, HonorificRules, ApplyRule)
  {
    PostCorrectionStages("the " + u);
    LeadingTheStages(u);
  }

  lemma HonorificRulesSkipThe(x: string)
    ensures Fold("the " + x, HonorificRules, ApplyRule) == "the " + x
  {
    HonorificWordsBlankFree();
    HonorificWordsNotThe();
    assert "the" + " " <= "the " + x;
    FoldSkipsOtherWords("the " + x, "the", HonorificRules);
  }

  lemma FoldCons(s: string, rules: seq<Rule>)
    requires rules != []
    ensures Fold(s, rules, ApplyRule) == Fold(ApplyRule(s, rules[0]), rules[1..], ApplyRule)
  {
  }

  lemma MeRuleOn(x: string)
    requires x == [] || x[0] != ' '
    ensures ApplyRule("me " + x, MeRule) == "mr " + x
  {
    var u := "me " + x;
    assert Fires(u, MeRule) by {
      assert u[..3] == "me ";
    }
    assert u[2..] == " " + x;
    DropOneBlank(x);
  }

  lemma DropOneBlank(x: string)
    requires x == [] || x[0] != ' '
    ensures DropBlanks(" " + x) == x
  {
    assert (" " + x)[1..] == x;
  }

  lemma LaterHonorificRulesSkipMr(x: string)
    ensures Fold("mr " + x, LaterHonorificRules, ApplyRule) == "mr " + x
  {
    HonorificWordsBlankFree();
    LaterHonorificWordsNotMr();
    assert "mr" + " " <= "mr " + x;
    FoldSkipsOtherWords("mr " + x, "mr", LaterHonorificRules);
  }

  lemma HonorificRulesOnMe(x: string)
    requires x == [] || x[0] != ' '
    ensures Fold("me " + x, HonorificRules, ApplyRule) == "mr " + x
  {
    FoldCons("me " + x, HonorificRules);
    assert HonorificRules[0] == MeRule && HonorificRules[1..] == LaterHonorificRules;
    MeRuleOn(x);
    LaterHonorificRulesSkipMr(x);
  }

  /** `^the +` runs before `^me +`, so a leading "the me" ends as "mr": "the me x" becomes "mr x". */
  lemma TheThenMe(x: string)
    requires x == [] || x[0] != ' '
    ensures Postprocess("the " + ("me " + x)) == Strip("mr " + x)
  {
    LeadingTheRemoved("me " + x);
    HonorificRulesOnMe(x);
  }

  lemma RulesOnTheThe(x: string)
    ensures ApplyPostCorrections("the " + ("the " + x)) == "the " + x
  {
    LeadingTheRemoved("the " + x);
    HonorificRulesSkipThe(x);
  }

  lemma StripKeepsThe(x: string)
    requires x != [] && Trimmed(x)
    ensures Strip("the " + x) == "the " + x
  {
    var v := "the " + x;
    assert Trimmed(v) by {
      assert v[0] == 't' && v[|v| - 1] == x[|x| - 1];
    }
    StripFixedPoints(v);
  }

  /** `postprocess("the the x")` keeps one "the", for any trimmed `x` that no honorific rule fires on. */
  lemma PostprocessTheThe(x: string)
    requires x != [] && Trimmed(x) && forall r :: r in HonorificRules ==> !Fires(x, r)
    ensures Postprocess("the " + ("the " + x)) == "the " + x
  {
    RulesOnTheThe(x);
    StripKeepsThe(x);
  }

  lemma RulesOnThe(x: string)
    requires x != [] && Trimmed(x) && forall r :: r in HonorificRules ==> !Fires(x, r)
    ensures ApplyPostCorrections("the " + x) == x
  {
    assert x[0] != ' ' by {
      assert IsSpace(' ');
    }
    LeadingTheRemoved(x);
    FoldSkipsIdle(x, HonorificRules);
  }

  /** `postprocess("the x")` is `x`, for any trimmed `x` that no honorific rule fires on. */
  lemma PostprocessThe(x: string)
    requires x != [] && Trimmed(x) && forall r :: r in HonorificRules ==> !Fires(x, r)
    ensures Postprocess("the " + x) == x
  {
    RulesOnThe(x);
    StripFixedPoints(x);
  }

  /**
   * `^the +` fires once per pass, so "the the x" keeps its second "the",
   * which a second pass removes: `postprocess` is not idempotent.
   */
  lemma PostprocessNotIdempotent(x: string)
    requires x != [] && Trimmed(x) && forall r :: r in HonorificRules ==> !Fires(x, r)
    ensures Postprocess("the " + ("the " + x)) == "the " + x
    ensures Postprocess(Postprocess("the " + ("the " + x))) == x
  {
    PostprocessTheThe(x);
    PostprocessThe(x);
  }

  /** No rule fires on a string too short to hold its word and a blank. */
  lemma {:induction false} FoldSkipsShort(s: string, rules: seq<Rule>)
    requires forall r :: r in rules ==> |r.word| >= |s|
    ensures Fold(s, rules, ApplyRule) == s
    decreases |rules|
  {
    if rules != [] {
      FoldSkipsShort(s, rules[1..]);
    }
  }

  /** Rules none of which fires on `s` leave it unchanged. */
  lemma {:induction false} FoldSkipsIdle(s: string, rules: seq<Rule>)
    requires forall r :: r in rules ==> !Fires(s, r)
    ensures Fold(s, rules, ApplyRule) == s
    decreases |rules|
  {
    if rules != [] {
      assert rules[0] in rules;
      assert forall r :: r in rules[1..] ==> r in rules;
      FoldSkipsIdle(s, rules[1..]);
    }
  }

  /** Rules whose replacement is no longer than their word and one blank never lengthen the label. */
  lemma {:induction false} FoldNotLonger(s: string, rules: seq<Rule>)
    requires forall r :: r in rules ==> |r.repl| <= |r.word| + 1
    ensures |Fold(s, rules, ApplyRule)| <= |s|
    decreases |rules|
  {
    if rules != [] {
      FoldNotLonger(ApplyRule(s, rules[0]), rules[1..]);
    }
  }

  lemma PostCorrectionRulesShort()
    ensures forall r :: r in PostCorrections ==> |r.repl| <= |r.word| + 1
  {
  }

  /** `postprocess` never lengthens a label: every rewrite is at most as long as what it replaces. */
  lemma PostprocessNeverLengthens(s: string)
    ensures |ApplyPostCorrections(s)| <= |s|
    ensures |Postprocess(s)| <= |s|
  {
    PostCorrectionRulesShort();
    FoldNotLonger(s, PostCorrections);
  }

  /**
   * A rule applied twice in a row acts once, provided its replacement does
   * not bring its own word back and is at least as long as its word and a
   * blank (so that what follows the replacement cannot start a new match).
   */
  lemma RepeatedRuleRedundant(s: string, rule: Rule, before: seq<Rule>, after: seq<Rule>)
    requires !(rule.word + " " <= rule.repl)
    requires |rule.repl| >= |rule.word| + 1
    ensures Fold(s, before + [rule, rule] + after, ApplyRule) == Fold(s, before + [rule] + after, ApplyRule)
  {
    var u := Fold(s, before, ApplyRule);
    var v := ApplyRule(u, rule);
    assert ApplyRule(v, rule) == v by {
      if Fires(u, rule) {
        assert v[..|rule.word| + 1] == rule.repl[..|rule.word| + 1];
      }
    }
    FoldAppend(s, before, [rule, rule] + after, ApplyRule);
    FoldAppend(s, before, [rule] + after, ApplyRule);
    assert ([rule, rule] + after)[1..] == [rule] + after;
    assert ([rule] + after)[1..] == after;
    assert before + [rule, rule] + after == before + ([rule, rule] + after);
    assert before + [rule] + after == before + ([rule] + after);
  }

  /**
   * The length condition above is needed: `^the +` -> '' replaces nothing
   * by its own word, yet applied twice it takes "the the x" to "x" where
   * once gives "the x".
   */
  lemma RepeatedTheRuleNotRedundant()
    ensures Fold("the the x", [TheRule, TheRule], ApplyRule) == "x"
    ensures Fold("the the x", [TheRule], ApplyRule) == "the x"
  {
    assert "the the x" == "the " + "the x";
    TheRuleOn("the x");
    TheRuleOn("x");
    assert [TheRule, TheRule][1..] == [TheRule] && [TheRule][1..] == [];
    assert Fold("x", [], ApplyRule) == "x";
    assert Fold("the x", [TheRule], ApplyRule) == Fold("x", [], ApplyRule);
    assert Fold("the the x", [TheRule, TheRule], ApplyRule) == Fold("the x", [TheRule], ApplyRule);
  }

  /** The rule list repeats `^sin +`; the second copy never fires after the first, so it changes nothing. */
  lemma DuplicateSinRuleRedundant(s: string)
    ensures Fold(s, HonorificRules, ApplyRule) == Fold(s, HonorificRules[..7] + HonorificRules[8..], ApplyRule)
  {
    var sin := Rule("sin", "sir ");
    var a, b := HonorificRules[..6], HonorificRules[8..];
    assert HonorificRules == a + [sin, sin] + b;
    assert HonorificRules[..7] + HonorificRules[8..] == a + [sin] + b;
    assert "sir "[2] != "sin "[2];
    RepeatedRuleRedundant(s, sin, a, b);
  }

  // ---------------------------------------------------------------------
  // The misspelling dictionary and `preprocess` (hansard/worker.py:85-93)
  // ---------------------------------------------------------------------

  /** The misspelling dictionary: (misspelling, correction) entries in the dictionary's iteration order. */
  type Corrections = seq<(string, string)>

  /** `string_val.replace(misspell, misspellings_dict[misspell])`. */
  function Correct(s: string, entry: (string, string)): string {
    ReplaceAll(s, entry.0, entry.1)
  }

  /** The loop over the dictionary: each entry replaces all its occurrences in the result of the previous entry. */
  function ApplyCorrections(s: string, corrections: Corrections): string {
    Fold(s, corrections, Correct)
  }

  /** The entries apply one after the other, in dictionary order. */
  lemma CorrectionsInOrder(s: string, first: Corrections, second: Corrections)
    ensures ApplyCorrections(s, first + second) == ApplyCorrections(ApplyCorrections(s, first), second)
  {
    FoldAppend(s, first, second, Correct);
  }

  /** An entry whose misspelling does not occur in the string leaves it unchanged. */
  lemma AbsentCorrectionSkipped(s: string, entry: (string, string), rest: Corrections)
    requires !Contains(s, entry.0)
    ensures ApplyCorrections(s, [entry] + rest) == ApplyCorrections(s, rest)
  {
    ReplaceAbsent(s, entry.0, entry.1);
    assert ([entry] + rest)[1..] == rest;
  }

  /** A string containing none of the misspellings comes through the dictionary unchanged. */
  lemma {:induction false} AbsentCorrectionsUnchanged(s: string, corrections: Corrections)
    requires forall e :: e in corrections ==> !Contains(s, e.0)
    ensures ApplyCorrections(s, corrections) == s
    decreases |corrections|
  {
    if corrections != [] {
      AbsentCorrectionSkipped(s, corrections[0], corrections[1..]);
      assert corrections == [corrections[0]] + corrections[1..];
      AbsentCorrectionsUnchanged(s, corrections[1..]);
    }
  }

  /**
   * `preprocess`: the parenthesis pass, `cleanse_string` (an external
   * function, given as `cleanse`), the misspelling dictionary, `cleanse_string`
   * again and `postprocess`. Whatever `cleanse` does, the label comes out
   * with no whitespace at either end.
   */
  function Preprocess(s: string, cleanse: string -> string, corrections: Corrections): (r: string)
    ensures Trimmed(r)
  {
    Postprocess(cleanse(ApplyCorrections(cleanse(StripParens(s)), corrections)))
  }

  /** When no misspelling occurs after the first cleansing, the dictionary step drops out. */
  lemma PreprocessWithoutMisspellings(s: string, cleanse: string -> string, corrections: Corrections)
    requires forall e :: e in corrections ==> !Contains(cleanse(StripParens(s)), e.0)
    ensures Preprocess(s, cleanse, corrections) == Postprocess(cleanse(cleanse(StripParens(s))))
  {
    AbsentCorrectionsUnchanged(cleanse(StripParens(s)), corrections);
  }
}
