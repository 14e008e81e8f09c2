/** Rules and their validation (internal/rules/model.go, internal/rules/validate.go), on normalised rules. */
module Rules {
  import opened Bytes
  import opened Encoding

  datatype ActionType = Hide | Rewrite | Other(name: Str)

  datatype MatchSpec = MatchSpec(path: Str, pid: Option<u32>, comm: Str, exe: Str)

  datatype ActionSpec = ActionSpec(kind: ActionType, find: Str, replace: Str)

  datatype Rule = Rule(id: Str, enabled: bool, priority: int, match_: MatchSpec, action: ActionSpec)

  datatype Ruleset = Ruleset(version: int, rules: seq<Rule>)

  /** The reasons for which a rule is refused, in the order in which they are looked for. */
  datatype Fault =
    | MissingId | InvalidId
    | MissingPath | RelativePath | PathTooLong
    | NoSelector | SeveralSelectors | ZeroPid | CommTooLong | RelativeExe
    | HideWithText | MissingFind | MissingReplace | LengthsDiffer | TextTooLong | UnsupportedAction

  predicate AlphaNumeric(c: byte) {
    48 <= c <= 57 || 65 <= c <= 90 || 97 <= c <= 122
  }

  /** The pattern for ids: an alphanumeric character, then alphanumerics, dots, underscores and dashes. */
  predicate WellFormedId(id: Str) {
    && id != [] && AlphaNumeric(id[0])
    && forall i | 0 < i < |id| :: AlphaNumeric(id[i]) || id[i] == 46 || id[i] == 95 || id[i] == 45
  }

  predicate IsAbsolute(path: Str) {
    path != [] && path[0] == 47
  }

  function SelectorCount(m: MatchSpec): nat {
    (if m.pid.Some? then 1 else 0) + (if m.comm != [] then 1 else 0) + (if m.exe != [] then 1 else 0)
  }

  /** What each reason means, independently of the others. */
  predicate Suffers(r: Rule, fault: Fault) {
    var m, a := r.match_, r.action;
    match fault
    case MissingId => r.id == []
    case InvalidId => !WellFormedId(r.id)
    case MissingPath => m.path == []
    case RelativePath => !IsAbsolute(m.path)
    case PathTooLong => |m.path| >= MAX_PATH_LEN
    case NoSelector => SelectorCount(m) == 0
    case SeveralSelectors => SelectorCount(m) > 1
    case ZeroPid => m.pid == Some(0)
    case CommTooLong => |m.comm| >= MAX_COMM_LEN
    case RelativeExe => m.exe != [] && !IsAbsolute(m.exe)
    case HideWithText => a.kind.Hide? && (a.find != [] || a.replace != [])
    case MissingFind => a.kind.Rewrite? && a.find == []
    case MissingReplace => a.kind.Rewrite? && a.replace == []
    case LengthsDiffer => a.kind.Rewrite? && |a.find| != |a.replace|
    case TextTooLong => a.kind.Rewrite? && |a.find| > MAX_TEXT_LEN
    case UnsupportedAction => a.kind.Other?
  }

  /** A rule that suffers from nothing. */
  ghost predicate ValidRule(r: Rule) {
    forall fault: Fault :: !Suffers(r, fault)
  }

  /** What a valid rule is, written out in bytes. An id begins with a digit or a letter and goes on with digits, letters,
      dashes, dots and underscores; the path has 1 to 63 bytes and begins with a slash; there is one selector; hiding has
      no text and rewriting two of the same length, from 1 to 64. */
  lemma ValidRuleMeans(r: Rule)
    ensures ValidRule(r) <==>
            && r.id != []
            && (forall i | 0 <= i < |r.id| ::
                  || 48 <= r.id[i] <= 57 || 65 <= r.id[i] <= 90 || 97 <= r.id[i] <= 122
                  || (i > 0 && (r.id[i] == 45 || r.id[i] == 46 || r.id[i] == 95)))
            && 1 <= |r.match_.path| <= 63 && r.match_.path[0] == 47
            && (|| (r.match_.pid.Some? && r.match_.pid.value != 0 && r.match_.comm == [] && r.match_.exe == [])
                || (r.match_.pid.None? && 1 <= |r.match_.comm| <= 15 && r.match_.exe == [])
                || (r.match_.pid.None? && r.match_.comm == [] && r.match_.exe != [] && r.match_.exe[0] == 47))
            && (|| (r.action.kind == Hide && r.action.find == [] && r.action.replace == [])
                || (r.action.kind == Rewrite && 1 <= |r.action.find| <= 64 && |r.action.replace| == |r.action.find|))
  {
    if ValidRule(r) {
      assert !Suffers(r, InvalidId) && !Suffers(r, RelativePath) && !Suffers(r, PathTooLong);
      assert !Suffers(r, NoSelector) && !Suffers(r, SeveralSelectors) && !Suffers(r, ZeroPid);
      assert !Suffers(r, CommTooLong) && !Suffers(r, RelativeExe);
      assert !Suffers(r, HideWithText) && !Suffers(r, MissingFind) && !Suffers(r, LengthsDiffer);
      assert !Suffers(r, TextTooLong) && !Suffers(r, UnsupportedAction);
    }
  }

  /** The order in which the reasons are looked for. */
  function Order(fault: Fault): nat {
    match fault
    case MissingId => 0
    case InvalidId => 1
    case MissingPath => 2
    case RelativePath => 3
    case PathTooLong => 4
    case NoSelector => 5
    case SeveralSelectors => 6
    case ZeroPid => 7
    case CommTooLong => 8
    case RelativeExe => 9
    case HideWithText => 10
    case MissingFind => 11
    case MissingReplace => 12
    case LengthsDiffer => 13
    case TextTooLong => 14
    case UnsupportedAction => 15
  }

  /** The reason that is reported. */
  ghost predicate FirstFault(r: Rule, fault: Fault) {
    Suffers(r, fault) && forall f: Fault | Order(f) < Order(fault) :: !Suffers(r, f)
  }

  /** `ruleIDPattern.MatchString`. */
  method MatchesIdPattern(id: Str) returns (ok: bool)
    ensures ok <==> WellFormedId(id)
  {
    if id == [] || !AlphaNumeric(id[0]) {
      return false;
    }
    for i := 1 to |id|
      invariant forall j | 0 < j < i :: AlphaNumeric(id[j]) || id[j] == 46 || id[j] == 95 || id[j] == 45
    {
      if !(AlphaNumeric(id[i]) || id[i] == 46 || id[i] == 95 || id[i] == 45) {
        return false;
      }
    }
    return true;
  }

  /** None of the first `n` reasons applies. */
  ghost predicate Clean(r: Rule, n: nat) {
    forall f: Fault | Order(f) < n :: !Suffers(r, f)
  }

  method IdAndPathFault(r: Rule) returns (fault: Option<Fault>)
    ensures fault.None? ==> Clean(r, 5)
    ensures fault.Some? ==> FirstFault(r, fault.value)
  {
    var m := r.match_;
    if r.id == [] {
      return Some(MissingId);
    }
    var matches := MatchesIdPattern(r.id);
    if !matches {
      return Some(InvalidId);
    }
    if m.path == [] {
      return Some(MissingPath);
    }
    if !IsAbsolute(m.path) {
      return Some(RelativePath);
    }
    if |m.path| >= MAX_PATH_LEN {
      return Some(PathTooLong);
    }
    return None;
  }

  method SelectorFault(r: Rule) returns (fault: Option<Fault>)
    requires Clean(r, 5)
    ensures fault.None? ==> Clean(r, 10)
    ensures fault.Some? ==> FirstFault(r, fault.value)
  {
    var m := r.match_;
    var selectorCount := 0;
    if m.pid.Some? {
      selectorCount := selectorCount + 1;
    }
    if m.comm != [] {
      selectorCount := selectorCount + 1;
    }
    if m.exe != [] {
      selectorCount := selectorCount + 1;
    }
    if selectorCount == 0 {
      return Some(NoSelector);
    }
    if selectorCount > 1 {
      return Some(SeveralSelectors);
    }
    if m.pid.Some? && m.pid.value == 0 {
      return Some(ZeroPid);
    }
    if m.comm != [] && |m.comm| >= MAX_COMM_LEN {
      return Some(CommTooLong);
    }
    if m.exe != [] && !IsAbsolute(m.exe) {
      return Some(RelativeExe);
    }
    return None;
  }

  method ActionFault(r: Rule) returns (fault: Option<Fault>)
    requires Clean(r, 10)
    ensures fault.None? ==> Clean(r, 16)
    ensures fault.Some? ==> FirstFault(r, fault.value)
  {
    var a := r.action;
    match a.kind {
      case Hide =>
        if a.find != [] || a.replace != [] {
          return Some(HideWithText);
        }
      case Rewrite =>
        if a.find == [] {
          return Some(MissingFind);
        }
        if a.replace == [] {
          return Some(MissingReplace);
        }
        if |a.find| != |a.replace| {
          return Some(LengthsDiffer);
        }
        if |a.find| > MAX_TEXT_LEN {
          return Some(TextTooLong);
        }
      case Other(_) =>
        return Some(UnsupportedAction);
    }
    return None;
  }

  /** `validateRule`: refuses exactly the rules that suffer from something, and names the first reason. */
  method ValidateRule(r: Rule) returns (fault: Option<Fault>)
    ensures fault.None? <==> ValidRule(r)
    ensures fault.Some? ==> FirstFault(r, fault.value)
  {
    fault := IdAndPathFault(r);
    if fault.None? {
      fault := SelectorFault(r);
    }
    if fault.None? {
      fault := ActionFault(r);
    }
  }

  /** What the compiler may rely on. */
  ghost predicate ValidRuleset(rs: Ruleset) {
    && rs.version > 0
    && (forall r | r in rs.rules :: ValidRule(r))
    && (forall i, j | 0 <= i < j < |rs.rules| :: rs.rules[i].id != rs.rules[j].id)
  }

  datatype RulesetError = InvalidVersion | InvalidRule(index: nat, fault: Fault) | DuplicateId(index: nat)

  function IndexOf(e: RulesetError): int {
    match e
    case InvalidVersion => -1
    case InvalidRule(i, _) => i
    case DuplicateId(i) => i
  }

  /** The errors of a ruleset: a bad version hides all others; each invalid rule has its first fault, and each valid rule
      whose id an earlier valid one has is a duplicate. */
  ghost predicate IsError(rs: Ruleset, e: RulesetError) {
    match e
    case InvalidVersion => rs.version <= 0
    case InvalidRule(i, fault) => rs.version > 0 && i < |rs.rules| && FirstFault(rs.rules[i], fault)
    case DuplicateId(i) => rs.version > 0 && i < |rs.rules| && ValidRule(rs.rules[i]) && Taken(rs, i, rs.rules[i].id)
  }

  /** One of the first `i` rules is valid and has the id. */
  ghost predicate Taken(rs: Ruleset, i: nat, id: Str)
    requires i <= |rs.rules|
  {
    exists j | 0 <= j < i :: ValidRule(rs.rules[j]) && rs.rules[j].id == id
  }

  /** All errors of the ruleset and no others, in the order of the rules. */
  ghost predicate ReportOf(rs: Ruleset, errs: seq<RulesetError>) {
    && (forall e :: e in errs <==> IsError(rs, e))
    && (forall a, b | 0 <= a < b < |errs| :: IndexOf(errs[a]) < IndexOf(errs[b]))
  }

  /** The report on the first `i` rules. */
  ghost predicate ReportUpTo(rs: Ruleset, errs: seq<RulesetError>, i: nat) {
    && (forall e :: e in errs <==> IsError(rs, e) && IndexOf(e) < i)
    && (forall a, b | 0 <= a < b < |errs| :: IndexOf(errs[a]) < IndexOf(errs[b]))
  }

  lemma ReportOneMore(rs: Ruleset, errs: seq<RulesetError>, i: nat, e: RulesetError)
    requires i < |rs.rules| && rs.version > 0 && ReportUpTo(rs, errs, i) && IsError(rs, e) && IndexOf(e) == i
    ensures ReportUpTo(rs, errs + [e], i + 1)
  {
    forall x | IsError(rs, x) && IndexOf(x) == i
      ensures x == e
    {
      if x.InvalidRule? && e.InvalidRule? {
        OneFirstFault(rs.rules[i], x.fault, e.fault);
      }
    }
    forall a, b | 0 <= a < b < |errs + [e]|
      ensures IndexOf((errs + [e])[a]) < IndexOf((errs + [e])[b])
    {
      if b == |errs| {
        assert errs[a] in errs;
      }
    }
  }

  lemma OneFirstFault(r: Rule, a: Fault, b: Fault)
    requires FirstFault(r, a) && FirstFault(r, b)
    ensures a == b
  {
    assert Order(a) == Order(b);
  }

  lemma ReportSameOnOneMore(rs: Ruleset, errs: seq<RulesetError>, i: nat)
    requires i < |rs.rules| && rs.version > 0 && ReportUpTo(rs, errs, i)
    requires ValidRule(rs.rules[i]) && !Taken(rs, i, rs.rules[i].id)
    ensures ReportUpTo(rs, errs, i + 1)
  {
  }

  lemma EmptyOrNot<T>(s: seq<T>)
    ensures s == [] || exists x :: x in s
  {
    if s != [] {
      assert s[0] in s;
    }
  }

  lemma NoErrorsMeansValid(rs: Ruleset, errs: seq<RulesetError>, faults: seq<Option<Fault>>)
    requires ReportOf(rs, errs) && |faults| == |rs.rules|
    requires forall i | 0 <= i < |faults| ::
               if faults[i].None? then ValidRule(rs.rules[i]) else FirstFault(rs.rules[i], faults[i].value)
    ensures errs == [] <==> ValidRuleset(rs)
  {
    if rs.version > 0 {
      forall i | 0 <= i < |rs.rules| && faults[i].Some?
        ensures exists f :: IsError(rs, InvalidRule(i, f))
      {
        assert IsError(rs, InvalidRule(i, faults[i].value));
      }
    }
    if errs == [] {
      assert !IsError(rs, InvalidVersion);
      assert forall i | 0 <= i < |rs.rules| :: ValidRule(rs.rules[i]);
      forall i, j | 0 <= i < j < |rs.rules|
        ensures rs.rules[i].id != rs.rules[j].id
      {
        assert !IsError(rs, DuplicateId(j));
      }
    }
    if ValidRuleset(rs) {
      forall e
        ensures !IsError(rs, e)
      {
        if e.InvalidRule? && e.index < |rs.rules| {
          assert rs.rules[e.index] in rs.rules;
        }
      }
      EmptyOrNot(errs);
    }
  }

  /** `ValidateRulesetReport`: every rule is looked at, and only valid rules reserve their id. The report lists all errors
      and no others. */
  method ValidateRuleset(rs: Ruleset) returns (errs: seq<RulesetError>)
    ensures errs == [] <==> ValidRuleset(rs)
    ensures ReportOf(rs, errs)
  {
    if rs.version <= 0 {
      return [InvalidVersion];
    }
    errs := [];
    var seen: set<Str> := {};
    ghost var faults: seq<Option<Fault>> := [];
    for i := 0 to |rs.rules|
      invariant forall id :: id in seen <==> Taken(rs, i, id)
      invariant ReportUpTo(rs, errs, i)
      invariant |faults| == i
      invariant forall j | 0 <= j < i ::
                  if faults[j].None? then ValidRule(rs.rules[j]) else FirstFault(rs.rules[j], faults[j].value)
    {
      var rule := rs.rules[i];
      var fault := ValidateRule(rule);
      faults := faults + [fault];
      if fault.Some? {
        ReportOneMore(rs, errs, i, InvalidRule(i, fault.value));
        errs := errs + [InvalidRule(i, fault.value)];
        continue;
      }
      if rule.id in seen {
        ReportOneMore(rs, errs, i, DuplicateId(i));
        errs := errs + [DuplicateId(i)];
        continue;
      }
      ReportSameOnOneMore(rs, errs, i);
      seen := seen + {rule.id};
    }
    assert ReportOf(rs, errs);
    NoErrorsMeansValid(rs, errs, faults);
  }

  /** A version that is not positive is reported alone, a positive one never. */
  lemma BadVersionIsReportedAlone(rs: Ruleset, errs: seq<RulesetError>)
    requires ReportOf(rs, errs)
    ensures rs.version == 0 || rs.version < 0 ==> InvalidVersion in errs && forall e | e in errs :: e == InvalidVersion
    ensures rs.version >= 1 ==> InvalidVersion !in errs
  {
    assert IsError(rs, InvalidVersion) <==> InvalidVersion in errs;
  }

  /** Only valid rules reserve their id: a valid rule is no duplicate of an invalid one before it, and is one of a valid
      one. */
  lemma OnlyValidRulesReserveIds(rs: Ruleset, errs: seq<RulesetError>, a: Rule, b: Rule)
    requires rs.version > 0 && rs.rules == [a, b] && a.id == b.id && ValidRule(b) && ReportOf(rs, errs)
    ensures DuplicateId(1) in errs <==> ValidRule(a)
  {
    assert rs.rules[0] == a && rs.rules[1] == b;
    assert ValidRule(a) ==> Taken(rs, 1, b.id);
    assert IsError(rs, DuplicateId(1)) <==> DuplicateId(1) in errs;
  }

  /** Ids identify rules. */
  lemma SameIdSameRule(rs: Ruleset, a: Rule, b: Rule)
    requires ValidRuleset(rs) && a in rs.rules && b in rs.rules && a.id == b.id
    ensures a == b
  {
    var i :| 0 <= i < |rs.rules| && rs.rules[i] == a;
    var j :| 0 <= j < |rs.rules| && rs.rules[j] == b;
    assert !(i < j) && !(j < i);
  }
}
