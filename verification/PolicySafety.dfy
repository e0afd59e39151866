/** Policy safety: what can never be allowed, and that allowing more never makes
    a file fail, but in one case. */
module PolicySafety {
  import opened Text
  import opened Policy

  function CodeOfCheck(c: Check): Option<string> {
    match c
    case Notice(code) => code
    case _ => Some(c.code)
  }

  predicate NeedsApprover(o: Options, requireApprover: bool) {
    requireApprover && Trim(o.approver) == ""
  }

  /** The check alone makes the file fail. */
  predicate Blocks(c: Check, rules: map<string, Setting>, o: Options, requireApprover: bool) {
    var line := LineOf(c, o);
    var setting := SettingOf(line, rules);
    match line.tag
    case Error => Stays(line, rules)
    case ForbiddenOp => Stays(line, rules)
    case DangerousOp => Stays(line, rules)
    case ForbiddenAllowed => setting == Some(Block) || (setting != Some(Off) && NeedsApprover(o, requireApprover))
    case _ => setting == Some(Block)
  }

  // ---- a file passes when nothing blocks ----

  lemma {:induction false} ReleasedAppend(a: seq<Item>, b: seq<Item>)
    ensures Released(a + b) == Released(a) + Released(b)
    decreases |b|
  {
    if b == [] {
      assert a + b == a;
    } else {
      var n := |b| - 1;
      ReleasedAppend(a, b[..n]);
      assert (a + b)[..|a + b| - 1] == a + b[..n];
    }
  }

  lemma {:induction false} LoweredUnreleased(list: seq<Item>, rules: map<string, Setting>)
    ensures Released(Lowered(list, rules)) == []
    decreases |list|
  {
    if list != [] {
      var n := |list| - 1;
      LoweredUnreleased(list[..n], rules);
      var last := if SettingOf(list[n], rules) == Some(Warn) then [Item(Downgraded, list[n].code)] else [];
      ReleasedAppend(Lowered(list[..n], rules), last);
      assert last != [] ==> last[..0] == [] && Released(last) == [];
    }
  }

  /** Nothing in the findings blocks. */
  predicate Clean(f: Findings, rules: map<string, Setting>, needsApprover: bool) {
    && Kept(f.errors, rules) == [] && Kept(f.forbiddenOps, rules) == [] && Kept(f.dangerousOps, rules) == []
    && Raised(f.warnings, rules) == [] && (needsApprover ==> Released(KeptWarnings(f.warnings, rules)) == [])
  }

  lemma CleanPasses(f: Findings, rules: map<string, Setting>, o: Options, requireApprover: bool)
    ensures IsValid(ApplyApproval(Ruled(f, rules), o.approver, requireApprover))
            <==> Clean(f, rules, NeedsApprover(o, requireApprover))
  {
    var r := Ruled(f, rules);
    var lowered := Lowered(f.errors, rules) + Lowered(f.forbiddenOps, rules) + Lowered(f.dangerousOps, rules);
    ReleasedAppend(KeptWarnings(f.warnings, rules), lowered);
    ReleasedAppend(Lowered(f.errors, rules) + Lowered(f.forbiddenOps, rules), Lowered(f.dangerousOps, rules));
    ReleasedAppend(Lowered(f.errors, rules), Lowered(f.forbiddenOps, rules));
    LoweredUnreleased(f.errors, rules);
    LoweredUnreleased(f.forbiddenOps, rules);
    LoweredUnreleased(f.dangerousOps, rules);
    hide Kept, Lowered, Raised, KeptWarnings, Released, Unreleased;
    assert Released(r.warnings) == Released(KeptWarnings(f.warnings, rules));
    Emptiness(Kept(f.dangerousOps, rules), Raised(f.warnings, rules));
    Emptiness(r.forbiddenOps, Demands(Released(r.warnings)));
  }

  lemma Emptiness(a: seq<Item>, b: seq<Item>)
    ensures a + b == [] <==> a == [] && b == []
  {
    assert |a + b| == |a| + |b|;
  }

  lemma KeptPush(list: seq<Item>, i: Item, rules: map<string, Setting>)
    ensures Kept(list + [i], rules) == [] <==> Kept(list, rules) == [] && !Stays(i, rules)
  {
    assert (list + [i])[..|list|] == list;
    Emptiness(Kept(list, rules), if Stays(i, rules) then [i] else []);
  }

  lemma RaisedPush(list: seq<Item>, i: Item, rules: map<string, Setting>)
    ensures Raised(list + [i], rules) == [] <==> Raised(list, rules) == [] && SettingOf(i, rules) != Some(Block)
  {
    assert (list + [i])[..|list|] == list;
    Emptiness(Raised(list, rules), if SettingOf(i, rules) == Some(Block) then [Item(Upgraded, i.code)] else []);
  }

  lemma ReleasedPush(list: seq<Item>, i: Item, rules: map<string, Setting>)
    ensures Released(KeptWarnings(list + [i], rules)) == []
            <==> Released(KeptWarnings(list, rules)) == []
                 && !(i.tag == ForbiddenAllowed && (SettingOf(i, rules) == None || SettingOf(i, rules) == Some(Warn)))
  {
    assert (list + [i])[..|list|] == list;
    var last := if SettingOf(i, rules) == None || SettingOf(i, rules) == Some(Warn) then [i] else [];
    ReleasedAppend(KeptWarnings(list, rules), last);
    Emptiness(Released(KeptWarnings(list, rules)), Released(last));
    assert last != [] ==> last[..0] == [];
  }

  lemma CleanAdd(f: Findings, c: Check, rules: map<string, Setting>, o: Options, requireApprover: bool)
    ensures var needs := NeedsApprover(o, requireApprover);
            Clean(Add(f, LineOf(c, o)), rules, needs)
            <==> Clean(f, rules, needs) && !Blocks(c, rules, o, requireApprover)
  {
    var line := LineOf(c, o);
    KeptPush(f.errors, line, rules);
    KeptPush(f.forbiddenOps, line, rules);
    KeptPush(f.dangerousOps, line, rules);
    RaisedPush(f.warnings, line, rules);
    ReleasedPush(f.warnings, line, rules);
    Tags(c, o);
    hide Kept, Raised, KeptWarnings, Released, LineOf, SettingOf, Stays, NeedsApprover;
    SettingCases(line, rules);
  }

  lemma SettingCases(i: Item, rules: map<string, Setting>)
    ensures Stays(i, rules) <==> SettingOf(i, rules) == None || SettingOf(i, rules) == Some(Block)
    ensures SettingOf(i, rules) == None || SettingOf(i, rules) == Some(Off) || SettingOf(i, rules) == Some(Warn)
            || SettingOf(i, rules) == Some(Block)
  {
    var setting := SettingOf(i, rules);
    if setting.Some? {
      match setting.value
      case Off =>
      case Warn =>
      case Block =>
    }
  }

  lemma Tags(c: Check, o: Options)
    ensures var t := LineOf(c, o).tag;
            t == Error || t == ForbiddenOp || t == DangerousOp || t == ForbiddenAllowed || t == OtherAllowed
                || t == Warning
  {
  }

  lemma {:induction false} CleanFound(checks: seq<Check>, rules: map<string, Setting>, o: Options,
                                      requireApprover: bool)
    ensures Clean(Found(checks, o), rules, NeedsApprover(o, requireApprover))
            <==> forall k :: 0 <= k < |checks| ==> !Blocks(checks[k], rules, o, requireApprover)
    decreases |checks|
  {
    hide Clean, Blocks;
    if checks == [] {
      NothingFound(rules, NeedsApprover(o, requireApprover), o);
    } else {
      var n := |checks| - 1;
      CleanFound(checks[..n], rules, o, requireApprover);
      CleanAdd(Found(checks[..n], o), checks[n], rules, o, requireApprover);
      assert forall k :: 0 <= k < n ==> checks[..n][k] == checks[k];
    }
  }

  lemma NothingFound(rules: map<string, Setting>, needsApprover: bool, o: Options)
    ensures Clean(Found([], o), rules, needsApprover)
  {
  }

  /** A file passes exactly when none of its checks blocks. */
  lemma PassesWhenNothingBlocks(checks: seq<Check>, rules: map<string, Setting>, o: Options, requireApprover: bool)
    ensures Passes(checks, rules, o, requireApprover)
            <==> forall k :: 0 <= k < |checks| ==> !Blocks(checks[k], rules, o, requireApprover)
  {
    CleanPasses(Found(checks, o), rules, o, requireApprover);
    CleanFound(checks, rules, o, requireApprover);
  }

  // ---- the properties ----

  /** For every configuration and everything that may be allowed: a built-in
      finding with a protected code, that is a structural error or a schema
      change in a DCL project, makes the file fail. */
  lemma ProtectedNeverPasses(checks: seq<Check>, config: Config, known: set<string>, guarded: set<string>, o: Options,
                             k: nat)
    requires k < |checks| && (checks[k].Structural? || (checks[k].Forbidden? && checks[k].absolute))
             && checks[k].code in guarded
    ensures !Passes(checks, Rules(config, known, guarded), o, config.requireApprover)
  {
    EffectiveUnguarded(config.rules, known + Elements(CustomCodes(config.customRules)), guarded);
    PassesWhenNothingBlocks(checks, Rules(config, known, guarded), o, config.requireApprover);
    assert Blocks(checks[k], Rules(config, known, guarded), o, config.requireApprover);
  }

  /** More is allowed, by the same approver. */
  predicate AllowsMore(o: Options, o': Options) {
    && (o.allowForbidden ==> o'.allowForbidden) && (o.allowDangerous ==> o'.allowDangerous)
    && o.allowedCodes <= o'.allowedCodes && o'.approver == o.approver
  }

  /** A forbidden operation whose rule only warns, allowed now and not before. */
  predicate NewlyReleased(c: Check, rules: map<string, Setting>, o: Options, o': Options) {
    c.Forbidden? && !Allowed(c, o) && Allowed(c, o') && c.code in rules && rules[c.code] == Warn
  }

  lemma BlocksLess(c: Check, rules: map<string, Setting>, o: Options, o': Options, requireApprover: bool)
    requires AllowsMore(o, o') && !Blocks(c, rules, o, requireApprover)
    ensures Blocks(c, rules, o', requireApprover)
            <==> NeedsApprover(o, requireApprover) && NewlyReleased(c, rules, o, o')
  {
  }

  /** Allowing more turns a passing file into a failing one exactly when an
      approver is required, none is named, and it releases a forbidden operation
      that the rules had lowered to a warning. */
  lemma AllowingMore(checks: seq<Check>, rules: map<string, Setting>, o: Options, o': Options, requireApprover: bool)
    requires AllowsMore(o, o') && Passes(checks, rules, o, requireApprover)
    ensures Passes(checks, rules, o', requireApprover)
            <==> !(NeedsApprover(o, requireApprover)
                   && exists k :: 0 <= k < |checks| && NewlyReleased(checks[k], rules, o, o'))
  {
    hide Blocks, Passes, NewlyReleased, AllowsMore;
    PassesWhenNothingBlocks(checks, rules, o, requireApprover);
    PassesWhenNothingBlocks(checks, rules, o', requireApprover);
    forall k | 0 <= k < |checks|
      ensures Blocks(checks[k], rules, o', requireApprover)
              <==> NeedsApprover(o, requireApprover) && NewlyReleased(checks[k], rules, o, o')
    {
      BlocksLess(checks[k], rules, o, o', requireApprover);
    }
  }

  /** Such a file: an operation lowered to a warning passes until it is allowed. */
  lemma AllowingFails(code: string, approver: string)
    requires Trim(approver) == ""
    ensures var checks, rules := [Forbidden(code, false)], map[code := Warn];
            && Passes(checks, rules, Options(false, false, {}, approver), true)
            && !Passes(checks, rules, Options(true, false, {}, approver), true)
  {
    var checks, rules := [Forbidden(code, false)], map[code := Warn];
    hide Passes;
    PassesWhenNothingBlocks(checks, rules, Options(false, false, {}, approver), true);
    PassesWhenNothingBlocks(checks, rules, Options(true, false, {}, approver), true);
    assert Blocks(checks[0], rules, Options(true, false, {}, approver), true);
  }

  /** A finding of a code whose rule is 'error' makes the file fail whatever is
      allowed, although the setting is documented as still releasable. */
  lemma ErrorRuleNeverReleased(checks: seq<Check>, rules: map<string, Setting>, o: Options, requireApprover: bool,
                               k: nat)
    requires k < |checks| && CodeOfCheck(checks[k]).Some?
    requires CodeOfCheck(checks[k]).value in rules && rules[CodeOfCheck(checks[k]).value] == Block
    ensures !Passes(checks, rules, o, requireApprover)
  {
    PassesWhenNothingBlocks(checks, rules, o, requireApprover);
    assert Blocks(checks[k], rules, o, requireApprover);
  }

  // ---- every finding is accounted for ----

  /** All lines of a result. */
  function Lines(f: Findings): seq<Item> {
    f.errors + f.forbiddenOps + f.dangerousOps + f.warnings
  }

  /** An allowance covers the check. */
  predicate Covered(c: Check, o: Options) {
    match c
    case Structural(_) => false
    case Notice(_) => false
    case Forbidden(code, absolute) => !absolute && (o.allowForbidden || code in o.allowedCodes)
    case Orphan(code) => o.allowDangerous || code in o.allowedCodes
    case Dangerous(code) => o.allowDangerous || code in o.allowedCodes
  }

  /** The tag of a finding that nothing releases. */
  function Plainly(c: Check): Tag {
    match c
    case Structural(_) => Error
    case Orphan(_) => Error
    case Forbidden(_, _) => ForbiddenOp
    case Dangerous(_) => DangerousOp
    case Notice(_) => Warning
  }

  /** What becomes of a check: 'off' drops its line; otherwise a finding that is
      not released stands or, under 'warn', is lowered, and what is released or was
      a warning stands or, under 'error', is raised; a released forbidden operation
      may be sent back for want of an approver. */
  function Outcome(c: Check, rules: map<string, Setting>, o: Options, requireApprover: bool): seq<Item> {
    var code := CodeOfCheck(c);
    var setting := if code.Some? && code.value in rules then Some(rules[code.value]) else None;
    if setting == Some(Off) then []
    else if c.Notice? || Covered(c, o) then
      [Item(if setting == Some(Block) then Upgraded
            else if c.Notice? then Warning
            else if !c.Forbidden? then OtherAllowed
            else if NeedsApprover(o, requireApprover) then ApproverRequired else ForbiddenAllowed, code)]
    else [Item(if setting == Some(Warn) then Downgraded else Plainly(c), code)]
  }

  function Outcomes(checks: seq<Check>, rules: map<string, Setting>, o: Options, requireApprover: bool): seq<Item> {
    if checks == [] then []
    else
      var n := |checks| - 1;
      Outcomes(checks[..n], rules, o, requireApprover) + Outcome(checks[n], rules, o, requireApprover)
  }

  /** Warnings after the approval step. */
  function Warned(warnings: seq<Item>, needsApprover: bool): multiset<Item> {
    if needsApprover then multiset(Unreleased(warnings)) + multiset(Demands(Released(warnings))) else multiset(warnings)
  }

  lemma {:induction false} UnreleasedAppend(a: seq<Item>, b: seq<Item>)
    ensures Unreleased(a + b) == Unreleased(a) + Unreleased(b)
    decreases |b|
  {
    if b == [] {
      assert a + b == a;
    } else {
      var n := |b| - 1;
      UnreleasedAppend(a, b[..n]);
      assert (a + b)[..|a + b| - 1] == a + b[..n];
    }
  }

  lemma WarnedAppend(a: seq<Item>, b: seq<Item>, needsApprover: bool)
    ensures Warned(a + b, needsApprover) == Warned(a, needsApprover) + Warned(b, needsApprover)
  {
    ReleasedAppend(a, b);
    UnreleasedAppend(a, b);
    DemandsAppend(Released(a), Released(b));
    hide Released, Unreleased, Demands;
  }

  lemma DemandsAppend(a: seq<Item>, b: seq<Item>)
    ensures Demands(a + b) == Demands(a) + Demands(b)
  {
  }

  lemma {:induction false} NothingReleased(warnings: seq<Item>)
    requires Released(warnings) == []
    ensures Unreleased(warnings) == warnings
    decreases |warnings|
  {
    if warnings != [] {
      var n := |warnings| - 1;
      assert |Released(warnings)| == |Released(warnings[..n])| + if warnings[n].tag == ForbiddenAllowed then 1 else 0;
      NothingReleased(warnings[..n]);
      assert warnings == warnings[..n] + [warnings[n]];
    }
  }

  lemma ApprovalSum(f: Findings, o: Options, requireApprover: bool)
    ensures multiset(Lines(ApplyApproval(f, o.approver, requireApprover)))
            == multiset(f.errors) + multiset(f.forbiddenOps) + multiset(f.dangerousOps)
               + Warned(f.warnings, NeedsApprover(o, requireApprover))
  {
    if Released(f.warnings) == [] { NothingReleased(f.warnings); }
    hide Released, Unreleased, Trim;
  }

  /** The lines of a result, list by list. */
  function Sum(f: Findings, rules: map<string, Setting>, needsApprover: bool): multiset<Item> {
    multiset(Kept(f.errors, rules)) + multiset(Kept(f.forbiddenOps, rules)) + multiset(Kept(f.dangerousOps, rules))
    + multiset(Raised(f.warnings, rules)) + Warned(KeptWarnings(f.warnings, rules), needsApprover)
    + multiset(Lowered(f.errors, rules)) + multiset(Lowered(f.forbiddenOps, rules))
    + multiset(Lowered(f.dangerousOps, rules))
  }

  lemma LoweredWarned(list: seq<Item>, rules: map<string, Setting>, needsApprover: bool)
    ensures Warned(Lowered(list, rules), needsApprover) == multiset(Lowered(list, rules))
  {
    LoweredUnreleased(list, rules);
    NothingReleased(Lowered(list, rules));
  }

  lemma RuledSum(f: Findings, rules: map<string, Setting>, o: Options, requireApprover: bool)
    ensures multiset(Lines(ApplyApproval(Ruled(f, rules), o.approver, requireApprover)))
            == Sum(f, rules, NeedsApprover(o, requireApprover))
  {
    var needs := NeedsApprover(o, requireApprover);
    ApprovalSum(Ruled(f, rules), o, requireApprover);
    var e, p, d := Lowered(f.errors, rules), Lowered(f.forbiddenOps, rules), Lowered(f.dangerousOps, rules);
    WarnedAppend(KeptWarnings(f.warnings, rules), e + p + d, needs);
    WarnedAppend(e + p, d, needs);
    WarnedAppend(e, p, needs);
    LoweredWarned(f.errors, rules, needs);
    LoweredWarned(f.forbiddenOps, rules, needs);
    LoweredWarned(f.dangerousOps, rules, needs);
    hide Kept, Raised, KeptWarnings, Lowered, Warned, ApplyApproval, Lines;
  }

  /** One more finding in a list. */
  lemma ListPush(list: seq<Item>, i: Item, rules: map<string, Setting>, needsApprover: bool)
    ensures multiset(Kept(list + [i], rules))
            == multiset(Kept(list, rules)) + if Stays(i, rules) then multiset{i} else multiset{}
    ensures multiset(Lowered(list + [i], rules))
            == multiset(Lowered(list, rules))
               + if SettingOf(i, rules) == Some(Warn) then multiset{Item(Downgraded, i.code)} else multiset{}
  {
    assert (list + [i])[..|list|] == list;
  }

  lemma WarningPush(list: seq<Item>, i: Item, rules: map<string, Setting>, needsApprover: bool)
    ensures multiset(Raised(list + [i], rules))
            == multiset(Raised(list, rules))
               + if SettingOf(i, rules) == Some(Block) then multiset{Item(Upgraded, i.code)} else multiset{}
    ensures Warned(KeptWarnings(list + [i], rules), needsApprover)
            == Warned(KeptWarnings(list, rules), needsApprover)
               + if SettingOf(i, rules) == None || SettingOf(i, rules) == Some(Warn) then Warned([i], needsApprover)
                 else multiset{}
  {
    assert (list + [i])[..|list|] == list;
    var last := if SettingOf(i, rules) == None || SettingOf(i, rules) == Some(Warn) then [i] else [];
    WarnedAppend(KeptWarnings(list, rules), last, needsApprover);
    WarnedOne(i, needsApprover);
  }

  lemma WarnedOne(i: Item, needsApprover: bool)
    ensures Warned([], needsApprover) == multiset{}
    ensures Warned([i], needsApprover)
            == if needsApprover && i.tag == ForbiddenAllowed then multiset{Item(ApproverRequired, i.code)}
               else multiset{i}
  {
    assert [i][..0] == [];
  }

  /** What a finding leaves behind under the rules. */
  function Left(i: Item, rules: map<string, Setting>): multiset<Item> {
    (if Stays(i, rules) then multiset{i} else multiset{})
    + if SettingOf(i, rules) == Some(Warn) then multiset{Item(Downgraded, i.code)} else multiset{}
  }

  /** What a warning leaves behind. */
  function LeftWarning(i: Item, rules: map<string, Setting>, needsApprover: bool): multiset<Item> {
    (if SettingOf(i, rules) == Some(Block) then multiset{Item(Upgraded, i.code)} else multiset{})
    + if SettingOf(i, rules) == None || SettingOf(i, rules) == Some(Warn) then Warned([i], needsApprover)
      else multiset{}
  }

  lemma SumFinding(f: Findings, i: Item, rules: map<string, Setting>, needsApprover: bool)
    requires i.tag == Error || i.tag == ForbiddenOp || i.tag == DangerousOp
    ensures Sum(Add(f, i), rules, needsApprover) == Sum(f, rules, needsApprover) + Left(i, rules)
  {
    ListPush(f.errors, i, rules, needsApprover);
    ListPush(f.forbiddenOps, i, rules, needsApprover);
    ListPush(f.dangerousOps, i, rules, needsApprover);
    hide Kept, Raised, KeptWarnings, Lowered, Warned, Stays, SettingOf;
  }

  lemma SumWarning(f: Findings, i: Item, rules: map<string, Setting>, needsApprover: bool)
    requires i.tag != Error && i.tag != ForbiddenOp && i.tag != DangerousOp
    ensures Sum(Add(f, i), rules, needsApprover) == Sum(f, rules, needsApprover) + LeftWarning(i, rules, needsApprover)
  {
    WarningPush(f.warnings, i, rules, needsApprover);
    hide Kept, Raised, KeptWarnings, Lowered, Warned, Stays, SettingOf;
  }

  lemma OutcomeIs(c: Check, rules: map<string, Setting>, o: Options, requireApprover: bool)
    ensures var i := LineOf(c, o);
            multiset(Outcome(c, rules, o, requireApprover))
            == if i.tag == Error || i.tag == ForbiddenOp || i.tag == DangerousOp then Left(i, rules)
               else LeftWarning(i, rules, NeedsApprover(o, requireApprover))
  {
    var i, needs := LineOf(c, o), NeedsApprover(o, requireApprover);
    WarnedOne(i, needs);
    SettingCases(i, rules);
    hide Warned, NeedsApprover;
  }

  lemma SumAdd(f: Findings, c: Check, rules: map<string, Setting>, o: Options, requireApprover: bool)
    ensures var needs := NeedsApprover(o, requireApprover);
            Sum(Add(f, LineOf(c, o)), rules, needs)
            == Sum(f, rules, needs) + multiset(Outcome(c, rules, o, requireApprover))
  {
    var i, needs := LineOf(c, o), NeedsApprover(o, requireApprover);
    OutcomeIs(c, rules, o, requireApprover);
    hide *;
    if i.tag == Error || i.tag == ForbiddenOp || i.tag == DangerousOp {
      SumFinding(f, i, rules, needs);
    } else {
      SumWarning(f, i, rules, needs);
    }
  }

  lemma {:induction false} FoundSum(checks: seq<Check>, rules: map<string, Setting>, o: Options, requireApprover: bool)
    ensures Sum(Found(checks, o), rules, NeedsApprover(o, requireApprover))
            == multiset(Outcomes(checks, rules, o, requireApprover))
    decreases |checks|
  {
    hide Sum, Outcome, LineOf;
    if checks == [] {
      NothingSums(rules, o, requireApprover);
    } else {
      var n := |checks| - 1;
      FoundSum(checks[..n], rules, o, requireApprover);
      SumAdd(Found(checks[..n], o), checks[n], rules, o, requireApprover);
    }
  }

  lemma NothingSums(rules: map<string, Setting>, o: Options, requireApprover: bool)
    ensures Sum(Found([], o), rules, NeedsApprover(o, requireApprover)) == multiset{}
  {
    WarnedOne(Item(Warning, None), NeedsApprover(o, requireApprover));
  }

  // ---- and listed in its place ----

  predicate Tagged(list: seq<Item>, tags: set<Tag>) {
    forall k :: 0 <= k < |list| ==> list[k].tag in tags
  }

  const WARNINGS := {ForbiddenAllowed, OtherAllowed, Warning}

  lemma {:induction false} FoundTagged(checks: seq<Check>, o: Options)
    ensures var f := Found(checks, o);
            && Tagged(f.errors, {Error}) && Tagged(f.forbiddenOps, {ForbiddenOp})
            && Tagged(f.dangerousOps, {DangerousOp}) && Tagged(f.warnings, WARNINGS)
    decreases |checks|
  {
    if checks != [] {
      FoundTagged(checks[..|checks| - 1], o);
      Tags(checks[|checks| - 1], o);
      hide LineOf;
    }
  }

  lemma {:induction false} RulesTagged(list: seq<Item>, rules: map<string, Setting>, tags: set<Tag>)
    requires Tagged(list, tags)
    ensures Tagged(Kept(list, rules), tags) && Tagged(KeptWarnings(list, rules), tags)
    ensures Tagged(Lowered(list, rules), {Downgraded}) && Tagged(Raised(list, rules), {Upgraded})
    decreases |list|
  {
    if list != [] {
      RulesTagged(list[..|list| - 1], rules, tags);
      hide Stays, SettingOf;
    }
  }

  lemma {:induction false} ApprovalTagged(warnings: seq<Item>, tags: set<Tag>)
    requires Tagged(warnings, tags)
    ensures Tagged(Unreleased(warnings), tags - {ForbiddenAllowed})
    decreases |warnings|
  {
    if warnings != [] { ApprovalTagged(warnings[..|warnings| - 1], tags); }
  }

  predicate InPlace(f: Findings, forbidden: set<Tag>, dangerous: set<Tag>, warnings: set<Tag>) {
    && Tagged(f.errors, {Error}) && Tagged(f.forbiddenOps, forbidden)
    && Tagged(f.dangerousOps, dangerous) && Tagged(f.warnings, warnings)
  }

  lemma TaggedAppend(a: seq<Item>, b: seq<Item>, s: set<Tag>, t: set<Tag>)
    requires Tagged(a, s) && Tagged(b, t)
    ensures Tagged(a + b, s + t)
  {
  }

  lemma RuledInPlace(f: Findings, rules: map<string, Setting>)
    requires InPlace(f, {ForbiddenOp}, {DangerousOp}, WARNINGS)
    ensures InPlace(Ruled(f, rules), {ForbiddenOp}, {DangerousOp, Upgraded}, WARNINGS + {Downgraded})
  {
    RulesTagged(f.errors, rules, {Error});
    RulesTagged(f.forbiddenOps, rules, {ForbiddenOp});
    RulesTagged(f.dangerousOps, rules, {DangerousOp});
    RulesTagged(f.warnings, rules, WARNINGS);
    var e, p, d := Lowered(f.errors, rules), Lowered(f.forbiddenOps, rules), Lowered(f.dangerousOps, rules);
    TaggedAppend(e, p, {Downgraded}, {Downgraded});
    TaggedAppend(e + p, d, {Downgraded} + {Downgraded}, {Downgraded});
    TaggedAppend(KeptWarnings(f.warnings, rules), e + p + d, WARNINGS, {Downgraded} + {Downgraded} + {Downgraded});
    TaggedAppend(Kept(f.dangerousOps, rules), Raised(f.warnings, rules), {DangerousOp}, {Upgraded});
    assert {Downgraded} + {Downgraded} + {Downgraded} == {Downgraded} && {DangerousOp} + {Upgraded}
           == {DangerousOp, Upgraded};
    hide Kept, KeptWarnings, Lowered, Raised, Tagged;
  }

  lemma ApprovalInPlace(f: Findings, o: Options, requireApprover: bool)
    requires InPlace(f, {ForbiddenOp}, {DangerousOp, Upgraded}, WARNINGS + {Downgraded})
    ensures InPlace(ApplyApproval(f, o.approver, requireApprover), {ForbiddenOp, ApproverRequired},
                    {DangerousOp, Upgraded}, WARNINGS + {Downgraded})
  {
    ApprovalTagged(f.warnings, WARNINGS + {Downgraded});
    hide Released, Unreleased, Trim;
  }

  lemma FoundInPlace(checks: seq<Check>, o: Options)
    ensures InPlace(Found(checks, o), {ForbiddenOp}, {DangerousOp}, WARNINGS)
  {
    FoundTagged(checks, o);
  }

  /** For every file, rule set, allowance and approver: each check leaves exactly
      the line its setting and its allowances say, or none under 'off', and no other
      line appears; and every line is in the list for its kind. */
  lemma EveryFinding(checks: seq<Check>, rules: map<string, Setting>, o: Options, requireApprover: bool)
    ensures var r := Result(checks, rules, o, requireApprover);
            && multiset(Lines(r)) == multiset(Outcomes(checks, rules, o, requireApprover))
            && InPlace(r, {ForbiddenOp, ApproverRequired}, {DangerousOp, Upgraded}, WARNINGS + {Downgraded})
  {
    hide Found, Ruled, ApplyApproval, Outcomes, Lines, InPlace, Sum, NeedsApprover;
    var f := Found(checks, o);
    RuledSum(f, rules, o, requireApprover);
    FoundSum(checks, rules, o, requireApprover);
    FoundInPlace(checks, o);
    RuledInPlace(f, rules);
    ApprovalInPlace(Ruled(f, rules), o, requireApprover);
  }
}
