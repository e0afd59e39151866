/** The validation policy: what the findings of a file become under the project's
    rules, the allowances given and the approver named. */
module Policy {
  import opened Text

  datatype Setting = Off | Warn | Block

  datatype Level = ForbiddenLevel | DangerousLevel | WarningLevel

  /** An entry of validation.customRules, and one of validation.rules, as configured. */
  datatype CustomRule = CustomRule(code: string, level: Option<Level>, hasMessage: bool, patternCompiles: bool)
  datatype RuleEntry = RuleEntry(code: string, setting: Option<Setting>)

  datatype Config = Config(customRules: seq<CustomRule>, rules: seq<RuleEntry>, requireApprover: bool)

  /** The settings that apply, and the number of entries refused. */
  datatype Policy = Policy(rules: map<string, Setting>, customCodes: seq<string>, problems: nat)

  /** [A-Z][A-Z0-9_]* */
  predicate IsCode(s: string) {
    && s != "" && 'A' <= s[0] <= 'Z'
    && forall k :: 0 <= k < |s| ==> 'A' <= s[k] <= 'Z' || '0' <= s[k] <= '9' || s[k] == '_'
  }

  /** A code starts with an upper-case letter and goes on with such letters, digits
      and '_'. */
  lemma CodeIs(c: char, rest: string)
    ensures IsCode([c] + rest)
            <==> 'A' <= c <= 'Z' && forall k :: 0 <= k < |rest| ==>
                   'A' <= rest[k] <= 'Z' || '0' <= rest[k] <= '9' || rest[k] == '_'
    ensures !IsCode("")
  {
    var s := [c] + rest;
    assert forall k :: 0 <= k < |rest| ==> s[k + 1] == rest[k];
  }

  function CodeOf(c: CustomRule): string {
    Upper(Trim(c.code))
  }

  predicate Accepted(c: CustomRule) {
    IsCode(CodeOf(c)) && c.level.Some? && c.hasMessage && c.patternCompiles
  }

  function CustomCodes(rules: seq<CustomRule>): seq<string> {
    if rules == [] then []
    else
      var n := |rules| - 1;
      CustomCodes(rules[..n]) + if Accepted(rules[n]) then [CodeOf(rules[n])] else []
  }

  /** The entries that take effect: with a setting, not protected, of a known code;
      of two for one code the later. */
  function Effective(entries: seq<RuleEntry>, known: set<string>, guarded: set<string>): map<string, Setting> {
    if entries == [] then map[]
    else
      var n := |entries| - 1;
      var before := Effective(entries[..n], known, guarded);
      var code := Upper(entries[n].code);
      if entries[n].setting.Some? && code !in guarded && code in known then before[code := entries[n].setting.value]
      else before
  }

  /** The entries that do not: they are the problems that are reported. */
  function Refused(entries: seq<RuleEntry>, known: set<string>, guarded: set<string>): (n: nat)
    ensures n <= |entries|
  {
    if entries == [] then 0
    else
      var last := entries[|entries| - 1];
      var code := Upper(last.code);
      Refused(entries[..|entries| - 1], known, guarded)
      + if last.setting.Some? && code in known && code !in guarded then 0 else 1
  }

  /** No entry is refused exactly when each has a setting and a known code that is
      not protected; then there is a rule for each. */
  lemma {:induction false} NoneRefused(entries: seq<RuleEntry>, known: set<string>, guarded: set<string>)
    ensures Refused(entries, known, guarded) == 0
            <==> forall k :: 0 <= k < |entries| ==>
                   entries[k].setting.Some? && Upper(entries[k].code) in known && Upper(entries[k].code) !in guarded
    ensures Refused(entries, known, guarded) == 0 ==>
              forall k :: 0 <= k < |entries| ==> Upper(entries[k].code) in Effective(entries, known, guarded)
    decreases |entries|
  {
    hide Upper;
    if entries != [] {
      var n := |entries| - 1;
      NoneRefused(entries[..n], known, guarded);
      assert forall k :: 0 <= k < n ==> entries[..n][k] == entries[k];
    }
  }

  function Elements(list: seq<string>): set<string> {
    set i | 0 <= i < |list| :: list[i]
  }

  function Rules(c: Config, known: set<string>, guarded: set<string>): map<string, Setting> {
    Effective(c.rules, known + Elements(CustomCodes(c.customRules)), guarded)
  }

  lemma {:induction false} EffectiveUnguarded(entries: seq<RuleEntry>, known: set<string>, guarded: set<string>)
    ensures forall code :: code in Effective(entries, known, guarded) ==> code !in guarded && code in known
    decreases |entries|
  {
    if entries != [] { EffectiveUnguarded(entries[..|entries| - 1], known, guarded); }
  }

  predicate Applies(e: RuleEntry, code: string, known: set<string>, guarded: set<string>) {
    e.setting.Some? && Upper(e.code) == code && code in known && code !in guarded
  }

  /** The setting of a code is that of the last entry for it. */
  lemma {:induction false} LastApplies(entries: seq<RuleEntry>, known: set<string>, guarded: set<string>,
                                       code: string, k: nat)
    requires k < |entries| && Applies(entries[k], code, known, guarded)
    requires forall j :: k < j < |entries| ==> !Applies(entries[j], code, known, guarded)
    ensures code in Effective(entries, known, guarded)
            && Effective(entries, known, guarded)[code] == entries[k].setting.value
    decreases |entries|
  {
    hide Upper;
    var n := |entries| - 1;
    if k < n {
      assert !Applies(entries[n], code, known, guarded);
      forall j | k < j < n ensures !Applies(entries[..n][j], code, known, guarded) {
        assert !Applies(entries[j], code, known, guarded);
      }
      LastApplies(entries[..n], known, guarded, code, k);
    }
  }

  /** A code without an entry that applies has no setting. */
  lemma {:induction false} NoneApplies(entries: seq<RuleEntry>, known: set<string>, guarded: set<string>, code: string)
    requires forall j :: 0 <= j < |entries| ==> !Applies(entries[j], code, known, guarded)
    ensures code !in Effective(entries, known, guarded)
    decreases |entries|
  {
    hide Upper;
    if entries != [] {
      var n := |entries| - 1;
      assert !Applies(entries[n], code, known, guarded);
      forall j | 0 <= j < n ensures !Applies(entries[..n][j], code, known, guarded) {
        assert !Applies(entries[j], code, known, guarded);
      }
      NoneApplies(entries[..n], known, guarded, code);
    }
  }

  /** A level, a message, a pattern that compiles, and this code when trimmed and
      in upper case. */
  predicate Complete(c: CustomRule, code: string) {
    c.level.Some? && c.hasMessage && c.patternCompiles && Upper(Trim(c.code)) == code && IsCode(code)
  }

  predicate AnyComplete(rules: seq<CustomRule>, code: string) {
    exists k :: 0 <= k < |rules| && Complete(rules[k], code)
  }

  lemma CompletePush(rules: seq<CustomRule>, c: CustomRule, code: string)
    ensures AnyComplete(rules + [c], code) <==> AnyComplete(rules, code) || Complete(c, code)
  {
    hide Complete;
    var all := rules + [c];
    if AnyComplete(rules, code) {
      var k :| 0 <= k < |rules| && Complete(rules[k], code);
      assert all[k] == rules[k];
    }
    assert all[|rules|] == c;
  }

  /** A custom rule takes effect exactly when it is complete. */
  lemma {:induction false} CustomExactly(rules: seq<CustomRule>, code: string)
    ensures code in CustomCodes(rules) <==> AnyComplete(rules, code)
    decreases |rules|
  {
    hide AnyComplete, Accepted, CodeOf;
    if rules == [] {
      NoneComplete(code);
    } else {
      var n := |rules| - 1;
      CustomExactly(rules[..n], code);
      CompleteIs(rules[n], code);
      CompletePush(rules[..n], rules[n], code);
      assert rules[..n] + [rules[n]] == rules;
      hide Complete;
    }
  }

  lemma NoneComplete(code: string)
    ensures !AnyComplete([], code)
  {
  }

  lemma CompleteIs(c: CustomRule, code: string)
    ensures Complete(c, code) <==> Accepted(c) && CodeOf(c) == code
  {
    hide Upper, Trim, IsCode;
  }

  class Validator {
    const config: Config
    const known: set<string>
    const guarded: set<string>
    var cached: Option<Policy>

    ghost predicate Valid()
      reads this
    {
      cached.Some? ==> IsPolicy(cached.value)
    }

    /** The rules that take effect, the accepted codes, and one problem for every
        entry that was not accepted. */
    ghost predicate IsPolicy(p: Policy)
      reads this
    {
      var codes := known + Elements(CustomCodes(config.customRules));
      && p.rules == Rules(config, known, guarded) && p.customCodes == CustomCodes(config.customRules)
      && p.problems == |config.customRules| - |p.customCodes| + Refused(config.rules, codes, guarded)
    }

    constructor (config: Config, known: set<string>, guarded: set<string>)
      ensures Valid() && this.config == config && this.known == known && this.guarded == guarded
    {
      this.config, this.known, this.guarded, cached := config, known, guarded, None;
    }

    /** The policy, read from the configuration once. */
    method GetValidationPolicy() returns (p: Policy)
      requires Valid()
      modifies `cached
      ensures Valid() && cached == Some(p) && IsPolicy(p)
      ensures forall code :: code in p.rules ==> code !in guarded && (code in known || code in p.customCodes)
    {
      EffectiveUnguarded(config.rules, known + Elements(CustomCodes(config.customRules)), guarded);
      if cached.Some? { return cached.value; }
      hide Effective, Accepted, Refused;
      var problems, customCodes, codes := 0, [], known;
      for i := 0 to |config.customRules|
        invariant customCodes == CustomCodes(config.customRules[..i]) && codes == known + Elements(customCodes)
        invariant problems + |customCodes| == i
      {
        var c := config.customRules[i];
        assert config.customRules[..i + 1][..i] == config.customRules[..i];
        if Accepted(c) {
          ElementsPush(customCodes, CodeOf(c));
          customCodes, codes := customCodes + [CodeOf(c)], codes + {CodeOf(c)};
        } else {
          problems := problems + 1;
        }
      }
      assert config.customRules[..|config.customRules|] == config.customRules;
      var rules, refused := ReadRules(codes);
      p := Policy(rules, customCodes, problems + refused);
      cached := Some(p);
    }

    method ReadRules(codes: set<string>) returns (rules: map<string, Setting>, refused: nat)
      ensures rules == Effective(config.rules, codes, guarded) && refused == Refused(config.rules, codes, guarded)
    {
      rules, refused := map[], 0;
      for i := 0 to |config.rules|
        invariant rules == Effective(config.rules[..i], codes, guarded)
                  && refused == Refused(config.rules[..i], codes, guarded)
      {
        var e := config.rules[i];
        assert config.rules[..i + 1][..i] == config.rules[..i];
        var code := Upper(e.code);
        if e.setting.None? || code in guarded || code !in codes {
          refused := refused + 1;
        } else {
          rules := rules[code := e.setting.value];
        }
      }
      assert config.rules[..|config.rules|] == config.rules;
    }
  }

  lemma ElementsPush(list: seq<string>, x: string)
    ensures Elements(list + [x]) == Elements(list) + {x}
  {
    var l := list + [x];
    forall y ensures y in Elements(l) <==> y in Elements(list) + {x} {
      if y in Elements(list) {
        var i :| 0 <= i < |list| && list[i] == y;
        assert l[i] == y;
      }
      if y == x { assert l[|list|] == y; }
    }
  }

  // ---- findings ----

  datatype Tag =
    | Error | ForbiddenOp | DangerousOp | ForbiddenAllowed | OtherAllowed | Warning | Downgraded | Upgraded
    | ApproverRequired

  /** One line of a validation result; some warnings have no code. */
  datatype Item = Item(tag: Tag, code: Option<string>)

  datatype Findings = Findings(errors: seq<Item>, forbiddenOps: seq<Item>, dangerousOps: seq<Item>, warnings: seq<Item>)

  /** What a check found in the file, before any allowance: a structural error,
      one that can be allowed like a dangerous operation, a forbidden operation
      (`absolute` for schema changes in a DCL project), a dangerous operation, a
      warning. */
  datatype Check =
    | Structural(code: string)
    | Orphan(code: string)
    | Forbidden(code: string, absolute: bool)
    | Dangerous(code: string)
    | Notice(noted: Option<string>)

  /** What was allowed for the file, and who approved it. */
  datatype Options = Options(allowForbidden: bool, allowDangerous: bool, allowedCodes: set<string>, approver: string)

  predicate Allowed(c: Check, o: Options) {
    match c
    case Structural(_) => false
    case Orphan(code) => o.allowDangerous || code in o.allowedCodes
    case Forbidden(code, absolute) => !absolute && (o.allowForbidden || code in o.allowedCodes)
    case Dangerous(code) => o.allowDangerous || code in o.allowedCodes
    case Notice(_) => false
  }

  /** The line a check adds, and to which list. */
  function LineOf(c: Check, o: Options): Item {
    match c
    case Structural(code) => Item(Error, Some(code))
    case Orphan(code) => Item(if Allowed(c, o) then OtherAllowed else Error, Some(code))
    case Forbidden(code, _) => Item(if Allowed(c, o) then ForbiddenAllowed else ForbiddenOp, Some(code))
    case Dangerous(code) => Item(if Allowed(c, o) then OtherAllowed else DangerousOp, Some(code))
    case Notice(code) => Item(Warning, code)
  }

  function Add(f: Findings, i: Item): Findings {
    match i.tag
    case Error => f.(errors := f.errors + [i])
    case ForbiddenOp => f.(forbiddenOps := f.forbiddenOps + [i])
    case DangerousOp => f.(dangerousOps := f.dangerousOps + [i])
    case _ => f.(warnings := f.warnings + [i])
  }

  function Found(checks: seq<Check>, o: Options): Findings {
    if checks == [] then Findings([], [], [], [])
    else Add(Found(checks[..|checks| - 1], o), LineOf(checks[|checks| - 1], o))
  }

  // ---- the rules ----

  function SettingOf(i: Item, rules: map<string, Setting>): Option<Setting> {
    if i.code.Some? && i.code.value in rules then Some(rules[i.code.value]) else None
  }

  predicate Stays(i: Item, rules: map<string, Setting>) {
    SettingOf(i, rules) == None || SettingOf(i, rules) == Some(Block)
  }

  function Kept(list: seq<Item>, rules: map<string, Setting>): seq<Item> {
    if list == [] then []
    else
      var n := |list| - 1;
      Kept(list[..n], rules) + if Stays(list[n], rules) then [list[n]] else []
  }

  function Lowered(list: seq<Item>, rules: map<string, Setting>): seq<Item> {
    if list == [] then []
    else
      var n := |list| - 1;
      Lowered(list[..n], rules) + if SettingOf(list[n], rules) == Some(Warn) then [Item(Downgraded, list[n].code)]
          else []
  }

  function KeptWarnings(list: seq<Item>, rules: map<string, Setting>): seq<Item> {
    if list == [] then []
    else
      var n := |list| - 1;
      KeptWarnings(list[..n], rules)
      + if SettingOf(list[n], rules) == None || SettingOf(list[n], rules) == Some(Warn) then [list[n]] else []
  }

  function Raised(list: seq<Item>, rules: map<string, Setting>): seq<Item> {
    if list == [] then []
    else
      var n := |list| - 1;
      Raised(list[..n], rules) + if SettingOf(list[n], rules) == Some(Block) then [Item(Upgraded, list[n].code)] else []
  }

  /** Errors may become warnings or go, warnings may block or go. */
  function Ruled(f: Findings, rules: map<string, Setting>): Findings {
    Findings(Kept(f.errors, rules), Kept(f.forbiddenOps, rules),
             Kept(f.dangerousOps, rules) + Raised(f.warnings, rules),
             KeptWarnings(f.warnings, rules)
             + (Lowered(f.errors, rules) + Lowered(f.forbiddenOps, rules) + Lowered(f.dangerousOps, rules)))
  }

  method Relax(list: seq<Item>, rules: map<string, Setting>, downgraded: seq<Item>)
    returns (kept: seq<Item>, lowered: seq<Item>)
    ensures kept == Kept(list, rules) && lowered == downgraded + Lowered(list, rules)
  {
    kept, lowered := [], downgraded;
    assert downgraded + [] == downgraded;
    for i := 0 to |list|
      invariant kept == Kept(list[..i], rules) && lowered == downgraded + Lowered(list[..i], rules)
    {
      assert list[..i + 1][..i] == list[..i];
      match SettingOf(list[i], rules) {
        case Some(Off) =>
        case Some(Warn) => lowered := lowered + [Item(Downgraded, list[i].code)];
        case _ => kept := kept + [list[i]];
      }
    }
    assert list[..|list|] == list;
  }

  method ApplyRulePolicy(f: Findings, rules: map<string, Setting>) returns (r: Findings)
    ensures r == Ruled(f, rules)
  {
    hide Kept, Lowered, Raised, KeptWarnings;
    if rules == map[] {
      NoRules(f.errors);
      NoRules(f.forbiddenOps);
      NoRules(f.dangerousOps);
      NoRules(f.warnings);
      return f;
    }
    var downgraded;
    var errors, forbiddenOps, dangerousOps, warnings := [], [], [], [];
    errors, downgraded := Relax(f.errors, rules, []);
    forbiddenOps, downgraded := Relax(f.forbiddenOps, rules, downgraded);
    dangerousOps, downgraded := Relax(f.dangerousOps, rules, downgraded);
    var raised;
    warnings, raised := Sift(f.warnings, rules);
    r := Findings(errors, forbiddenOps, dangerousOps + raised, warnings + downgraded);
  }

  method Sift(list: seq<Item>, rules: map<string, Setting>) returns (kept: seq<Item>, raised: seq<Item>)
    ensures kept == KeptWarnings(list, rules) && raised == Raised(list, rules)
  {
    kept, raised := [], [];
    for i := 0 to |list|
      invariant kept == KeptWarnings(list[..i], rules) && raised == Raised(list[..i], rules)
    {
      assert list[..i + 1][..i] == list[..i];
      match SettingOf(list[i], rules) {
        case Some(Off) =>
        case Some(Block) => raised := raised + [Item(Upgraded, list[i].code)];
        case _ => kept := kept + [list[i]];
      }
    }
    assert list[..|list|] == list;
  }

  lemma {:induction false} NoneDropped(list: seq<Item>)
    ensures Kept(list, map[]) == list && KeptWarnings(list, map[]) == list
    decreases |list|
  {
    if list != [] {
      NoneDropped(list[..|list| - 1]);
      assert list == list[..|list| - 1] + [list[|list| - 1]];
    }
  }

  lemma {:induction false} NoneMoved(list: seq<Item>)
    ensures Lowered(list, map[]) == [] && Raised(list, map[]) == []
    decreases |list|
  {
    if list != [] { NoneMoved(list[..|list| - 1]); }
  }

  lemma NoRules(list: seq<Item>)
    ensures Kept(list, map[]) == list && KeptWarnings(list, map[]) == list
    ensures Lowered(list, map[]) == [] && Raised(list, map[]) == []
  {
    NoneDropped(list);
    NoneMoved(list);
  }

  // ---- the approver ----

  function Released(warnings: seq<Item>): seq<Item> {
    if warnings == [] then []
    else
      var n := |warnings| - 1;
      Released(warnings[..n]) + if warnings[n].tag == ForbiddenAllowed then [warnings[n]] else []
  }

  function Demands(released: seq<Item>): (r: seq<Item>)
    ensures |r| == |released|
  {
    seq(|released|, i requires 0 <= i < |released| => Item(ApproverRequired, released[i].code))
  }

  function Unreleased(warnings: seq<Item>): seq<Item> {
    if warnings == [] then []
    else
      var n := |warnings| - 1;
      Unreleased(warnings[..n]) + if warnings[n].tag == ForbiddenAllowed then [] else [warnings[n]]
  }

  /** A forbidden operation that was allowed needs an approver, if the project says so. */
  function ApplyApproval(f: Findings, approver: string, requireApprover: bool): Findings {
    var released := Released(f.warnings);
    if released == [] || Trim(approver) != "" || !requireApprover then f
    else f.(warnings := Unreleased(f.warnings), forbiddenOps := f.forbiddenOps + Demands(released))
  }

  function Result(checks: seq<Check>, rules: map<string, Setting>, o: Options, requireApprover: bool): Findings {
    ApplyApproval(Ruled(Found(checks, o), rules), o.approver, requireApprover)
  }

  predicate IsValid(f: Findings) {
    f.errors == [] && f.forbiddenOps == [] && f.dangerousOps == []
  }

  /** The file passes. */
  predicate Passes(checks: seq<Check>, rules: map<string, Setting>, o: Options, requireApprover: bool) {
    IsValid(Result(checks, rules, o, requireApprover))
  }

  /** One file's checks through the whole pipeline. */
  method ValidateChecks(v: Validator, checks: seq<Check>, o: Options) returns (r: Findings)
    requires v.Valid()
    modifies v`cached
    ensures v.Valid() && r == Result(checks, Rules(v.config, v.known, v.guarded), o, v.config.requireApprover)
  {
    hide Ruled;
    var f := Findings([], [], [], []);
    for i := 0 to |checks|
      invariant f == Found(checks[..i], o)
    {
      assert checks[..i + 1][..i] == checks[..i];
      f := Add(f, LineOf(checks[i], o));
    }
    assert checks[..|checks|] == checks;
    var policy := v.GetValidationPolicy();
    var ruled := ApplyRulePolicy(f, policy.rules);
    r := ApplyApproval(ruled, o.approver, v.config.requireApprover);
  }
}
