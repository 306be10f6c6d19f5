/** The policy evaluator: the first rule that matches an action decides, and no match means deny. */
module Policy {
  import opened Wrappers

  /** One alternative of an action pattern: a literal, or a literal followed by `.*`. */
  datatype Alternative = Exactly(text: string) | StartingWith(text: string)

  /** `pattern` stands for the regular expression `^(a|b|...)$`. */
  datatype Rule = Rule(name: string, pattern: seq<Alternative>, verdict: string, reason: string, agentTypes: seq<string>)

  datatype Verdict = Allow | Deny | RequireApproval

  datatype Result = Decided(verdict: Verdict, reason: string, matchedRule: Option<string>) | ValueError

  // ---------- Matching ----------

  /** The alternative matches all of `s`; the dot of `.*` stops at a newline. */
  predicate MatchesAll(a: Alternative, s: string) {
    match a
    case Exactly(text) => s == text
    case StartingWith(text) => text <= s && '\n' !in s[|text|..]
  }

  predicate EndsInNewline(s: string) {
    s != [] && s[|s| - 1] == '\n'
  }

  /** Python's `$` also accepts a position just before a final newline. */
  predicate MatchesUpToEnd(a: Alternative, s: string) {
    MatchesAll(a, s) || (EndsInNewline(s) && MatchesAll(a, s[..|s| - 1]))
  }

  predicate PatternMatches(pattern: seq<Alternative>, action: string) {
    exists a <- pattern :: MatchesUpToEnd(a, action)
  }

  predicate Matches(r: Rule, action: string, agentType: string) {
    PatternMatches(r.pattern, action) && ("*" in r.agentTypes || agentType in r.agentTypes)
  }

  // ---------- Evaluation ----------

  /** What a matching rule answers; a verdict outside the enumeration raises. */
  function Answer(r: Rule): Result {
    if r.verdict == "allow" then Decided(Allow, r.reason, Some(r.name))
    else if r.verdict == "deny" then Decided(Deny, r.reason, Some(r.name))
    else if r.verdict == "require_approval" then Decided(RequireApproval, r.reason, Some(r.name))
    else ValueError
  }

  const DEFAULT_DENY: Result := Decided(Deny, "No matching policy rule — default deny", None)

  function Evaluate(rules: seq<Rule>, action: string, agentType: string): Result {
    if rules == [] then DEFAULT_DENY
    else if Matches(rules[0], action, agentType) then Answer(rules[0])
    else Evaluate(rules[1..], action, agentType)
  }

  /** A missing or empty rule list falls back to the default rules. */
  function EffectiveRules(given: Option<seq<Rule>>): seq<Rule> {
    if given == None || given == Some([]) then DefaultRules() else given.value
  }

  // ---------- Order independence ----------

  predicate Unmatched(rules: seq<Rule>, action: string, agentType: string) {
    forall r <- rules :: !Matches(r, action, agentType)
  }

  /** All rules that match the call give the same answer. */
  predicate Agree(rules: seq<Rule>, action: string, agentType: string) {
    forall r, r' | r in rules && r' in rules && Matches(r, action, agentType) && Matches(r', action, agentType) ::
      Answer(r) == Answer(r')
  }

  predicate IsPermutation(rules: seq<Rule>, rules': seq<Rule>) {
    multiset(rules) == multiset(rules')
  }

  /** The answer is that of a matching rule, or the default when there is none. */
  lemma {:induction false} AnswerOfMatch(rules: seq<Rule>, action: string, agentType: string)
    ensures Unmatched(rules, action, agentType) ==> Evaluate(rules, action, agentType) == DEFAULT_DENY
    ensures !Unmatched(rules, action, agentType) ==>
              exists r <- rules :: Matches(r, action, agentType) && Evaluate(rules, action, agentType) == Answer(r)
  {
    if rules != [] && !Matches(rules[0], action, agentType) {
      AnswerOfMatch(rules[1..], action, agentType);
      assert rules == [rules[0]] + rules[1..];
    }
  }

  /** The first rule that matches decides. */
  lemma {:induction false} FirstMatchDecides(rules: seq<Rule>, i: nat, action: string, agentType: string)
    requires i < |rules| && Matches(rules[i], action, agentType)
    requires forall j | 0 <= j < i :: !Matches(rules[j], action, agentType)
    ensures Evaluate(rules, action, agentType) == Answer(rules[i])
  {
    if i > 0 {
      assert !Matches(rules[0], action, agentType);
      FirstMatchDecides(rules[1..], i - 1, action, agentType);
    }
  }

  lemma SameMembers(rules: seq<Rule>, rules': seq<Rule>)
    requires IsPermutation(rules, rules')
    ensures forall r :: r in rules <==> r in rules'
  {
    forall r ensures r in rules <==> r in rules' {
      assert r in multiset(rules) <==> r in multiset(rules');
    }
  }

  /** The order of the rules does not matter for a call exactly when the rules that match it agree. */
  lemma OrderIndependentIff(rules: seq<Rule>, action: string, agentType: string)
    ensures Agree(rules, action, agentType)
       <==> forall rules' | IsPermutation(rules, rules') ::
              Evaluate(rules', action, agentType) == Evaluate(rules, action, agentType)
  {
    if Agree(rules, action, agentType) {
      forall rules' | IsPermutation(rules, rules')
        ensures Evaluate(rules', action, agentType) == Evaluate(rules, action, agentType)
      {
        SameMembers(rules, rules');
        AnswerOfMatch(rules, action, agentType);
        AnswerOfMatch(rules', action, agentType);
      }
    }
    if forall rules' | IsPermutation(rules, rules') ::
         Evaluate(rules', action, agentType) == Evaluate(rules, action, agentType) {
      forall r | r in rules && Matches(r, action, agentType) ensures Answer(r) == Evaluate(rules, action, agentType) {
        var rules' := BroughtForward(rules, r);
        assert IsPermutation(rules, rules');
      }
    }
  }

  lemma BroughtForward(rules: seq<Rule>, r: Rule) returns (rules': seq<Rule>)
    requires r in rules
    ensures IsPermutation(rules, rules') && rules' != [] && rules'[0] == r
  {
    var i :| 0 <= i < |rules| && rules[i] == r;
    rules' := [r] + (rules[..i] + rules[i + 1..]);
    assert rules == rules[..i] + ([r] + rules[i + 1..]);
  }

  /** An action that no rule matches is denied under every order. */
  lemma UnmatchedDenied(rules: seq<Rule>, rules': seq<Rule>, action: string, agentType: string)
    requires IsPermutation(rules, rules') && Unmatched(rules, action, agentType)
    ensures Evaluate(rules', action, agentType) == DEFAULT_DENY
  {
    SameMembers(rules, rules');
    AnswerOfMatch(rules', action, agentType);
  }

  // ---------- The default rules ----------

  /** The literal actions of each default rule. */
  function Texts(i: nat): seq<string> {
    match i
    case 0 => ["read_file", "list_directory", "screenshot", "query_atspi"]
    case 1 => ["delete_file", "overwrite_file", "move_file", "chmod", "chown"]
    case 2 => ["apt_install", "pip_install", "npm_install", "snap_install"]
    case 3 => ["run_shell", "sudo_exec"]
    case 4 => ["http_request", "download_file", "upload_file"]
    case 5 => ["enter_password", "submit_credentials", "access_keychain"]
    case 6 => ["browser_purchase", "submit_payment"]
    case 7 => ["click", "type_text", "scroll", "key_press", "mouse_move"]
    case 8 => ["write_file"]
    case _ => []
  }

  /** The prefixes that two of them allow to be continued in any way. */
  function Prefixes(i: nat): seq<string> {
    match i
    case 0 => ["get_"]
    case 3 => ["systemctl_"]
    case _ => []
  }

  function Pattern(i: nat): seq<Alternative> {
    seq(|Texts(i)|, k requires 0 <= k < |Texts(i)| => Exactly(Texts(i)[k]))
    + seq(|Prefixes(i)|, k requires 0 <= k < |Prefixes(i)| => StartingWith(Prefixes(i)[k]))
  }

  const RULES: nat := 9

  function RuleName(i: nat): string {
    match i
    case 0 => "allow-reads"
    case 1 => "destructive-file-ops"
    case 2 => "package-install"
    case 3 => "shell-exec"
    case 4 => "network-unknown"
    case 5 => "credential-ops"
    case 6 => "browser-purchase"
    case 7 => "gui-actions"
    case _ => "write-file"
  }

  function RuleReason(i: nat): string {
    match i
    case 0 => "Read-only operations are safe"
    case 1 => "Destructive file operations need user consent"
    case 2 => "Package installation needs user consent"
    case 3 => "Shell execution and system control need approval"
    case 4 => "Network requests to external hosts need approval"
    case 5 => "Credential operations always require explicit consent"
    case 6 => "Financial transactions are denied by default"
    case 7 => "GUI interactions are allowed with audit logging"
    case _ => "File writes to workspace paths are allowed"
  }

  function RuleVerdict(i: nat): string {
    match i
    case 0 => "allow"
    case 6 => "deny"
    case 7 => "allow"
    case 8 => "allow"
    case _ => "require_approval"
  }

  function DefaultRule(i: nat): Rule
    requires i < RULES
  {
    Rule(RuleName(i), Pattern(i), RuleVerdict(i), RuleReason(i), ["*"])
  }

  function DefaultRules(): (rules: seq<Rule>)
    ensures |rules| == RULES && forall i | 0 <= i < RULES :: rules[i] == DefaultRule(i)
  {
    seq(RULES, i requires 0 <= i < RULES => DefaultRule(i))
  }

  /** The action without one final newline: what a pattern match is really about. */
  function Core(s: string): string {
    if EndsInNewline(s) then s[..|s| - 1] else s
  }

  lemma MatchesCore(a: Alternative, s: string)
    requires !EndsInNewline(a.text)
    ensures MatchesUpToEnd(a, s) <==> MatchesAll(a, Core(s))
  {
  }

  /** The action is one of the rule's literals, or continues one of its prefixes on the same line. */
  predicate InGroup(c: string, i: nat) {
    c in Texts(i) || exists p <- Prefixes(i) :: p <= c && '\n' !in c[|p|..]
  }

  /** Actions of different groups differ in their first two characters or in length. */
  function Kind(c: string): nat {
    if |c| < 2 then RULES
    else
      match c[0]
      case 'r' => if c[1] == 'e' then 0 else 3
      case 'l' => 0
      case 'q' => 0
      case 'g' => 0
      case 'o' => 1
      case 'm' => if |c| == 9 then 1 else 7
      case 'p' => 2
      case 'n' => 2
      case 'h' => 4
      case 'u' => 4
      case 'e' => 5
      case 'b' => 6
      case 't' => 7
      case 'k' => 7
      case 'w' => 8
      case 'd' => if c[1] == 'e' then 1 else 4
      case 'a' => if c[1] == 'p' then 2 else 5
      case 'c' => if c[1] == 'h' then 1 else 7
      case 's' =>
        (match c[1]
         case 'c' => if |c| == 10 then 0 else 7
         case 'n' => 2
         case 'y' => 3
         case 'u' => if |c| == 9 then 3 else if |c| == 18 then 5 else 6
         case _ => RULES)
      case _ => RULES
  }

  lemma TextKind(i: nat, k: nat)
    requires i < RULES && k < |Texts(i)|
    ensures Kind(Texts(i)[k]) == i
  {
    if i < 2 {
      TextKind1(i, k);
    } else if i < 5 {
      TextKind2(i, k);
    } else {
      TextKind3(i, k);
    }
  }

  lemma TextKind1(i: nat, k: nat)
    requires i < 2 && k < |Texts(i)|
    ensures Kind(Texts(i)[k]) == i
  {
  }

  lemma TextKind2(i: nat, k: nat)
    requires 2 <= i < 5 && k < |Texts(i)|
    ensures Kind(Texts(i)[k]) == i
  {
  }

  lemma TextKind3(i: nat, k: nat)
    requires 5 <= i < RULES && k < |Texts(i)|
    ensures Kind(Texts(i)[k]) == i
  {
  }

  lemma TextEnds1(i: nat, k: nat)
    requires i < 4 && k < |Texts(i)|
    ensures !EndsInNewline(Texts(i)[k])
  {
  }

  lemma TextEnds2(i: nat, k: nat)
    requires 4 <= i < RULES && k < |Texts(i)|
    ensures !EndsInNewline(Texts(i)[k])
  {
  }

  lemma PrefixKind(i: nat, p: string, c: string)
    requires p in Prefixes(i) && p <= c
    ensures Kind(c) == i && !EndsInNewline(p)
  {
    assert |p| >= 2 && c[..|p|][0] == c[0] && c[..|p|][1] == c[1];
  }

  lemma GroupKind(c: string, i: nat)
    requires i < RULES && InGroup(c, i)
    ensures Kind(c) == i
  {
    if c in Texts(i) {
      var k :| 0 <= k < |Texts(i)| && Texts(i)[k] == c;
      TextKind(i, k);
    } else {
      var p :| p in Prefixes(i) && p <= c && '\n' !in c[|p|..];
      PrefixKind(i, p, c);
    }
  }

  lemma CleanAlternatives(i: nat, a: Alternative)
    requires i < RULES && a in Pattern(i)
    ensures !EndsInNewline(a.text)
  {
    var k :| 0 <= k < |Pattern(i)| && Pattern(i)[k] == a;
    if k < |Texts(i)| {
      if i < 4 {
        TextEnds1(i, k);
      } else {
        TextEnds2(i, k);
      }
    } else {
      PrefixKind(i, a.text, a.text);
    }
  }

  /** A default rule matches the actions of its group and no others. */
  lemma MatchIsGroup(i: nat, action: string, agentType: string)
    requires i < RULES
    ensures Matches(DefaultRule(i), action, agentType) <==> InGroup(Core(action), i)
  {
    var c := Core(action);
    if a :| a in Pattern(i) && MatchesUpToEnd(a, action) {
      CleanAlternatives(i, a);
      MatchesCore(a, action);
    }
    if InGroup(c, i) {
      var a := GroupAlternative(c, i);
      CleanAlternatives(i, a);
      MatchesCore(a, action);
    }
  }

  lemma GroupAlternative(c: string, i: nat) returns (a: Alternative)
    requires InGroup(c, i)
    ensures a in Pattern(i) && MatchesAll(a, c)
  {
    if c in Texts(i) {
      var k :| 0 <= k < |Texts(i)| && Texts(i)[k] == c;
      a := Pattern(i)[k];
    } else {
      var p :| p in Prefixes(i) && p <= c && '\n' !in c[|p|..];
      var k :| 0 <= k < |Prefixes(i)| && Prefixes(i)[k] == p;
      a := Pattern(i)[|Texts(i)| + k];
    }
  }

  /** No action, whatever characters it is made of, matches two default rules. */
  lemma DefaultRulesExclusive(i: nat, j: nat, action: string, agentType: string)
    requires i < RULES && j < RULES
    requires Matches(DefaultRule(i), action, agentType) && Matches(DefaultRule(j), action, agentType)
    ensures i == j
  {
    MatchIsGroup(i, action, agentType);
    MatchIsGroup(j, action, agentType);
    GroupKind(Core(action), i);
    GroupKind(Core(action), j);
  }

  lemma DefaultsAgree(action: string, agentType: string)
    ensures Agree(DefaultRules(), action, agentType)
  {
    forall r, r' | r in DefaultRules() && r' in DefaultRules()
                   && Matches(r, action, agentType) && Matches(r', action, agentType)
      ensures Answer(r) == Answer(r')
    {
      var i :| 0 <= i < RULES && DefaultRules()[i] == r;
      var j :| 0 <= j < RULES && DefaultRules()[j] == r';
      DefaultRulesExclusive(i, j, action, agentType);
    }
  }

  /** The default rules may be listed in any order. */
  lemma DefaultOrderIrrelevant(rules: seq<Rule>, action: string, agentType: string)
    requires IsPermutation(DefaultRules(), rules)
    ensures Evaluate(rules, action, agentType) == Evaluate(DefaultRules(), action, agentType)
  {
    DefaultsAgree(action, agentType);
    OrderIndependentIff(DefaultRules(), action, agentType);
  }

  // ---------- What the default rules say of every action ----------

  /** What becomes of the actions of each group. */
  function GroupVerdict(i: nat): Verdict {
    if i in {0, 7, 8} then Allow else if i == 6 then Deny else RequireApproval
  }

  lemma VerdictAnswers(i: nat)
    requires i < RULES
    ensures Answer(DefaultRule(i)) == Decided(GroupVerdict(i), RuleReason(i), Some(RuleName(i)))
  {
    assert RuleVerdict(i) in {"allow", "deny", "require_approval"};
  }

  /** An action of a group gets that group's verdict in the name of its rule, and an action of none is denied
      by default. */
  predicate IsTabled(action: string, result: Result) {
    && (forall i | 0 <= i < RULES && InGroup(Core(action), i) ::
          result == Decided(GroupVerdict(i), RuleReason(i), Some(RuleName(i))))
    && ((forall i | 0 <= i < RULES :: !InGroup(Core(action), i)) ==> result == DEFAULT_DENY)
  }

  /** The default policy as a table, for every string. */
  lemma DefaultTable(action: string, agentType: string)
    ensures IsTabled(action, Evaluate(DefaultRules(), action, agentType))
  {
    forall i | 0 <= i < RULES && InGroup(Core(action), i)
      ensures Evaluate(DefaultRules(), action, agentType)
              == Decided(GroupVerdict(i), RuleReason(i), Some(RuleName(i)))
    {
      GroupDecides(i, action, agentType);
    }
    if forall i | 0 <= i < RULES :: !InGroup(Core(action), i) {
      UnlistedDenied(action, agentType);
    }
  }

  lemma UnlistedDenied(action: string, agentType: string)
    requires forall i | 0 <= i < RULES :: !InGroup(Core(action), i)
    ensures Evaluate(DefaultRules(), action, agentType) == DEFAULT_DENY
  {
    forall r | r in DefaultRules() ensures !Matches(r, action, agentType) {
      var j :| 0 <= j < RULES && DefaultRules()[j] == r;
      MatchIsGroup(j, action, agentType);
    }
    AnswerOfMatch(DefaultRules(), action, agentType);
  }

  lemma GroupDecides(i: nat, action: string, agentType: string)
    requires i < RULES && InGroup(Core(action), i)
    ensures Evaluate(DefaultRules(), action, agentType)
            == Decided(GroupVerdict(i), RuleReason(i), Some(RuleName(i)))
  {
    MatchIsGroup(i, action, agentType);
    forall j | 0 <= j < i ensures !Matches(DefaultRules()[j], action, agentType) {
      if Matches(DefaultRule(j), action, agentType) {
        DefaultRulesExclusive(j, i, action, agentType);
      }
    }
    FirstMatchDecides(DefaultRules(), i, action, agentType);
    VerdictAnswers(i);
  }

  /** An evaluator that is given no rules, or an empty list of them, answers by the same table: an empty
      list does not deny everything. */
  lemma NoRulesMeansDefaults(given: Option<seq<Rule>>, action: string, agentType: string)
    requires given == None || given == Some([])
    ensures Evaluate(EffectiveRules(given), action, agentType) == Evaluate(DefaultRules(), action, agentType)
    ensures IsTabled(action, Evaluate(EffectiveRules(given), action, agentType))
  {
    DefaultTable(action, agentType);
  }

  // ---------- The same in writing ----------

  /** The action is one of the texts, with or without a final newline. */
  predicate IsAction(action: string, texts: seq<string>) {
    exists text <- texts :: action == text || action == text + "\n"
  }

  /** The action is the prefix and more on the same line, with or without a final newline. */
  ghost predicate Continues(action: string, prefix: string) {
    exists more: string :: '\n' !in more && (action == prefix + more || action == (prefix + more) + "\n")
  }

  lemma CoreIs(action: string, c: string)
    requires !EndsInNewline(c)
    ensures Core(action) == c <==> action == c || action == c + "\n"
  {
    if EndsInNewline(action) {
      assert action == action[..|action| - 1] + "\n";
    }
  }

  lemma ContinuesIff(action: string, prefix: string)
    requires prefix != [] && !EndsInNewline(prefix)
    ensures Continues(action, prefix) <==> prefix <= Core(action) && '\n' !in Core(action)[|prefix|..]
  {
    var c := Core(action);
    if more: string :| '\n' !in more && (action == prefix + more || action == (prefix + more) + "\n") {
      assert more != [] ==> (prefix + more)[|prefix + more| - 1] == more[|more| - 1];
      CoreIs(action, prefix + more);
      assert c[|prefix|..] == more;
    }
    if prefix <= c && '\n' !in c[|prefix|..] {
      var more := c[|prefix|..];
      assert c == prefix + more;
      assert more != [] ==> c[|c| - 1] == more[|more| - 1];
      CoreIs(action, c);
    }
  }

  /** The rule is for the agent, and one alternative of its pattern is the action, or its prefix with more on
      the same line, a final newline of the action aside. */
  ghost predicate Applies(r: Rule, action: string, agentType: string) {
    && ("*" in r.agentTypes || agentType in r.agentTypes)
    && ((exists text :: Exactly(text) in r.pattern && (action == text || action == text + "\n"))
        || (exists text :: StartingWith(text) in r.pattern && Continues(action, text)))
  }

  lemma AlternativeIs(a: Alternative, action: string)
    ensures MatchesUpToEnd(a, action)
       <==> match a
            case Exactly(text) => action == text || action == text + "\n"
            case StartingWith(text) => Continues(action, text)
  {
    if EndsInNewline(action) {
      assert action == action[..|action| - 1] + "\n";
    }
    if a.StartingWith? {
      if MatchesAll(a, action) {
        assert action == a.text + action[|a.text|..];
      }
      if EndsInNewline(action) && MatchesAll(a, action[..|action| - 1]) {
        var line := action[..|action| - 1];
        assert action == (a.text + line[|a.text|..]) + "\n";
      }
      if more: string :| '\n' !in more && (action == a.text + more || action == (a.text + more) + "\n") {
        assert (a.text + more)[|a.text|..] == more;
        assert action == (a.text + more) + "\n" ==> action[..|action| - 1] == a.text + more;
      }
    }
  }

  lemma AppliesIff(r: Rule, action: string, agentType: string)
    ensures Applies(r, action, agentType) <==> Matches(r, action, agentType)
  {
    forall a | a in r.pattern
      ensures MatchesUpToEnd(a, action)
         <==> match a
              case Exactly(text) => action == text || action == text + "\n"
              case StartingWith(text) => Continues(action, text)
    {
      AlternativeIs(a, action);
    }
  }

  /** With rules of one's own: the first rule that applies gives its verdict, reason and name, or raises if its
      verdict is none of the three. */
  lemma FirstApplicableDecides(rules: seq<Rule>, i: nat, action: string, agentType: string)
    requires i < |rules| && Applies(rules[i], action, agentType)
    requires forall j | 0 <= j < i :: !Applies(rules[j], action, agentType)
    ensures Evaluate(EffectiveRules(Some(rules)), action, agentType)
            == match rules[i].verdict
               case "allow" => Decided(Allow, rules[i].reason, Some(rules[i].name))
               case "deny" => Decided(Deny, rules[i].reason, Some(rules[i].name))
               case "require_approval" => Decided(RequireApproval, rules[i].reason, Some(rules[i].name))
               case _ => ValueError
  {
    forall j | 0 <= j <= i ensures Applies(rules[j], action, agentType) <==> Matches(rules[j], action, agentType) {
      AppliesIff(rules[j], action, agentType);
    }
    FirstMatchDecides(rules, i, action, agentType);
  }

  /** And where none applies the action is denied. */
  lemma NoneAppliesDenied(rules: seq<Rule>, action: string, agentType: string)
    requires rules != [] && forall r <- rules :: !Applies(r, action, agentType)
    ensures Evaluate(EffectiveRules(Some(rules)), action, agentType)
            == Decided(Deny, "No matching policy rule — default deny", None)
  {
    forall r | r in rules ensures !Matches(r, action, agentType) {
      AppliesIff(r, action, agentType);
    }
    AnswerOfMatch(rules, action, agentType);
  }

  lemma GroupSpelled(i: nat, action: string)
    requires i < RULES
    ensures InGroup(Core(action), i) <==> IsAction(action, Texts(i)) || exists p <- Prefixes(i) :: Continues(action, p)
  {
    forall text | text in Texts(i) ensures Core(action) == text <==> action == text || action == text + "\n" {
      TextClean(i, text);
      CoreIs(action, text);
    }
    forall p | p in Prefixes(i)
      ensures Continues(action, p) <==> p <= Core(action) && '\n' !in Core(action)[|p|..]
    {
      PrefixKind(i, p, p);
      ContinuesIff(action, p);
    }
  }

  lemma TextClean(i: nat, text: string)
    requires i < RULES && text in Texts(i)
    ensures !EndsInNewline(text)
  {
    var k :| 0 <= k < |Texts(i)| && Texts(i)[k] == text;
    if i < 4 {
      TextEnds1(i, k);
    } else {
      TextEnds2(i, k);
    }
  }

  /** One group, its texts, prefix and answer given from outside. */
  lemma DecideGroup(i: nat, texts: seq<string>, prefixes: seq<string>, result: Result, action: string, agentType: string)
    requires i < RULES && texts == Texts(i) && prefixes == Prefixes(i)
    requires result == Decided(GroupVerdict(i), RuleReason(i), Some(RuleName(i)))
    requires IsAction(action, texts) || exists p <- prefixes :: Continues(action, p)
    ensures Evaluate(DefaultRules(), action, agentType) == result
  {
    GroupSpelled(i, action);
    GroupDecides(i, action, agentType);
  }

  lemma ReadsDecided(action: string, agentType: string)
    requires IsAction(action, ["read_file", "list_directory", "screenshot", "query_atspi"]) || Continues(action, "get_")
    ensures Evaluate(DefaultRules(), action, agentType)
            == Decided(Allow, "Read-only operations are safe", Some("allow-reads"))
  {
    DecideGroup(0, ["read_file", "list_directory", "screenshot", "query_atspi"], ["get_"],
                Decided(Allow, "Read-only operations are safe", Some("allow-reads")),
                action, agentType);
  }

  lemma FileOpsDecided(action: string, agentType: string)
    requires IsAction(action, ["delete_file", "overwrite_file", "move_file", "chmod", "chown"])
    ensures Evaluate(DefaultRules(), action, agentType)
            == Decided(RequireApproval, "Destructive file operations need user consent", Some("destructive-file-ops"))
  {
    DecideGroup(1, ["delete_file", "overwrite_file", "move_file", "chmod", "chown"], [],
                Decided(RequireApproval, "Destructive file operations need user consent", Some("destructive-file-ops")),
                action, agentType);
  }

  lemma InstallsDecided(action: string, agentType: string)
    requires IsAction(action, ["apt_install", "pip_install", "npm_install", "snap_install"])
    ensures Evaluate(DefaultRules(), action, agentType)
            == Decided(RequireApproval, "Package installation needs user consent", Some("package-install"))
  {
    DecideGroup(2, ["apt_install", "pip_install", "npm_install", "snap_install"], [],
                Decided(RequireApproval, "Package installation needs user consent", Some("package-install")),
                action, agentType);
  }

  lemma ShellsDecided(action: string, agentType: string)
    requires IsAction(action, ["run_shell", "sudo_exec"]) || Continues(action, "systemctl_")
    ensures Evaluate(DefaultRules(), action, agentType)
            == Decided(RequireApproval, "Shell execution and system control need approval", Some("shell-exec"))
  {
    DecideGroup(3, ["run_shell", "sudo_exec"], ["systemctl_"],
                Decided(RequireApproval, "Shell execution and system control need approval", Some("shell-exec")),
                action, agentType);
  }

  lemma NetworkDecided(action: string, agentType: string)
    requires IsAction(action, ["http_request", "download_file", "upload_file"])
    ensures Evaluate(DefaultRules(), action, agentType)
            == Decided(RequireApproval, "Network requests to external hosts need approval", Some("network-unknown"))
  {
    DecideGroup(4, ["http_request", "download_file", "upload_file"], [],
                Decided(RequireApproval, "Network requests to external hosts need approval", Some("network-unknown")),
                action, agentType);
  }

  lemma CredentialsDecided(action: string, agentType: string)
    requires IsAction(action, ["enter_password", "submit_credentials", "access_keychain"])
    ensures Evaluate(DefaultRules(), action, agentType)
            == Decided(RequireApproval, "Credential operations always require explicit consent", Some("credential-ops"))
  {
    DecideGroup(5, ["enter_password", "submit_credentials", "access_keychain"], [],
                Decided(RequireApproval, "Credential operations always require explicit consent", Some("credential-ops")),
                action, agentType);
  }

  lemma PurchasesDecided(action: string, agentType: string)
    requires IsAction(action, ["browser_purchase", "submit_payment"])
    ensures Evaluate(DefaultRules(), action, agentType)
            == Decided(Deny, "Financial transactions are denied by default", Some("browser-purchase"))
  {
    DecideGroup(6, ["browser_purchase", "submit_payment"], [],
                Decided(Deny, "Financial transactions are denied by default", Some("browser-purchase")),
                action, agentType);
  }

  lemma GuiDecided(action: string, agentType: string)
    requires IsAction(action, ["click", "type_text", "scroll", "key_press", "mouse_move"])
    ensures Evaluate(DefaultRules(), action, agentType)
            == Decided(Allow, "GUI interactions are allowed with audit logging", Some("gui-actions"))
  {
    DecideGroup(7, ["click", "type_text", "scroll", "key_press", "mouse_move"], [],
                Decided(Allow, "GUI interactions are allowed with audit logging", Some("gui-actions")),
                action, agentType);
  }

  lemma WritesDecided(action: string, agentType: string)
    requires IsAction(action, ["write_file"])
    ensures Evaluate(DefaultRules(), action, agentType)
            == Decided(Allow, "File writes to workspace paths are allowed", Some("write-file"))
  {
    DecideGroup(8, ["write_file"], [],
                Decided(Allow, "File writes to workspace paths are allowed", Some("write-file")),
                action, agentType);
  }

  lemma TextsListed(i: nat, k: nat)
    requires i < RULES && k < |Texts(i)|
    ensures Texts(i)[k] in
              {"read_file", "list_directory", "screenshot", "query_atspi",
               "delete_file", "overwrite_file", "move_file", "chmod", "chown",
               "apt_install", "pip_install", "npm_install", "snap_install",
               "run_shell", "sudo_exec",
               "http_request", "download_file", "upload_file",
               "enter_password", "submit_credentials", "access_keychain",
               "browser_purchase", "submit_payment",
               "click", "type_text", "scroll", "key_press", "mouse_move",
               "write_file"}
  {
  }

  /** Every other action is denied by default. */
  lemma OthersDenied(action: string, agentType: string)
    requires Core(action) !in
              {"read_file", "list_directory", "screenshot", "query_atspi",
               "delete_file", "overwrite_file", "move_file", "chmod", "chown",
               "apt_install", "pip_install", "npm_install", "snap_install",
               "run_shell", "sudo_exec",
               "http_request", "download_file", "upload_file",
               "enter_password", "submit_credentials", "access_keychain",
               "browser_purchase", "submit_payment",
               "click", "type_text", "scroll", "key_press", "mouse_move",
               "write_file"}
    requires !Continues(action, "get_") && !Continues(action, "systemctl_")
    ensures Evaluate(DefaultRules(), action, agentType)
            == Decided(Deny, "No matching policy rule — default deny", None)
  {
    forall i | 0 <= i < RULES ensures !InGroup(Core(action), i) {
      if Core(action) in Texts(i) {
        var k :| 0 <= k < |Texts(i)| && Texts(i)[k] == Core(action);
        TextsListed(i, k);
      }
      OtherPrefixes(i, action);
    }
    UnlistedDenied(action, agentType);
  }

  lemma OtherPrefixes(i: nat, action: string)
    requires i < RULES && !Continues(action, "get_") && !Continues(action, "systemctl_")
    ensures forall p <- Prefixes(i) :: !(p <= Core(action) && '\n' !in Core(action)[|p|..])
  {
    forall p | p in Prefixes(i) ensures !(p <= Core(action) && '\n' !in Core(action)[|p|..]) {
      PrefixKind(i, p, p);
      ContinuesIff(action, p);
    }
  }
}
