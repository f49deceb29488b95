/** A priority-ordered table of keyword rules: the first rule one of whose
    keywords occurs in the text supplies the reply. Both offline fallback
    matchers (the app's and the backend's) are proved equal to a table of
    this form. */
module KeywordRules {
  import opened Text

  datatype Rule = Rule(keywords: seq<string>, reply: string)

  /** Some keyword of the rule occurs in the text. */
  predicate Matches(rule: Rule, text: string)
  {
    exists k :: 0 <= k < |rule.keywords| && Contains(text, rule.keywords[k])
  }

  /** The reply of the first matching rule, or the default when none matches. */
  function FirstMatch(rules: seq<Rule>, text: string, default: string): (r: string)
    ensures r == default || exists i :: 0 <= i < |rules| && r == rules[i].reply
  {
    if rules == [] then default
    else if Matches(rules[0], text) then rules[0].reply
    else FirstMatch(rules[1..], text, default)
  }

  /** The index of the first matching rule, if any. */
  function FirstMatchIndex(rules: seq<Rule>, text: string): (r: nat)
    ensures r <= |rules|
    ensures forall j :: 0 <= j < r ==> !Matches(rules[j], text)
    ensures r < |rules| ==> Matches(rules[r], text)
  {
    if rules == [] then 0
    else if Matches(rules[0], text) then 0
    else 1 + FirstMatchIndex(rules[1..], text)
  }

  /** `FirstMatch` answers with rule `i` exactly when rule `i` matches and
      no earlier rule does; with the default exactly when no rule matches. */
  lemma {:induction false} FirstMatchChoice(rules: seq<Rule>, text: string, default: string)
    ensures var i := FirstMatchIndex(rules, text);
      FirstMatch(rules, text, default) == if i < |rules| then rules[i].reply else default
    ensures FirstMatchIndex(rules, text) == |rules| <==> forall j :: 0 <= j < |rules| ==> !Matches(rules[j], text)
  {
    if rules != [] && !Matches(rules[0], text) {
      FirstMatchChoice(rules[1..], text, default);
      assert forall j :: 1 <= j < |rules| ==> rules[j] == rules[1..][j - 1];
    }
  }

  /** `FirstMatch` over a table written out in full is an if-chain. */
  lemma FirstMatchCons(r: Rule, rest: seq<Rule>, text: string, default: string)
    ensures FirstMatch([r] + rest, text, default)
      == if Matches(r, text) then r.reply else FirstMatch(rest, text, default)
  {
    assert ([r] + rest)[1..] == rest;
  }

  lemma MatchesOne(rule: Rule, text: string)
    requires |rule.keywords| == 1
    ensures Matches(rule, text) <==> Contains(text, rule.keywords[0])
  {
  }

  lemma MatchesTwo(rule: Rule, text: string)
    requires |rule.keywords| == 2
    ensures Matches(rule, text) <==> Contains(text, rule.keywords[0]) || Contains(text, rule.keywords[1])
  {
  }

  lemma MatchesThree(rule: Rule, text: string)
    requires |rule.keywords| == 3
    ensures Matches(rule, text) <==>
      Contains(text, rule.keywords[0]) || Contains(text, rule.keywords[1]) || Contains(text, rule.keywords[2])
  {
  }
}
