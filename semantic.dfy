/** The semantic collectors (src/parser/Semantic.cpp): each statement the
    parser recognises is checked here and recorded in the environment.
    Attributes are staged until the variable or task they precede; `using`
    statements configure the profiles, the default interpreter and the
    thread count; asserts are stored and evaluated later.

    Error messages are represented by their kind (`SemErr`) and the hint
    computed for them; the coloured text around them is not modelled. What
    the `Core` namespace answers (whether a word is an OS or an
    architecture name) and whether a file exists are parameters. */
module Semantic {
  import opened Wrappers
  import opened Support
  import opened Attributes
  import opened TableHelper

  // ---------------------------------------------------------------------
  // Keyword tables
  // ---------------------------------------------------------------------

  /** A lookup in an `AbstractKeywordMap`: keys compare case-insensitively
      (`StringViewEq`). The keys of each table are distinct after folding,
      so the entry found is the only one that matches. */
  function KeywordLookup<T>(table: seq<(string, T)>, name: string): (r: Option<T>)
    ensures r.None? <==> forall i :: 0 <= i < |table| ==> !EqualsIgnoreCase(table[i].0, name)
    ensures r.Some? ==> exists i :: 0 <= i < |table| && EqualsIgnoreCase(table[i].0, name) && r.value == table[i].1
  {
    if table == [] then None
    else if EqualsIgnoreCase(table[0].0, name) then Some(table[0].1)
    else
      var r := KeywordLookup(table[1..], name);
      assert forall i :: 1 <= i < |table| ==> table[1..][i - 1] == table[i];
      r
  }

  /** The lookup sees a name only through its folded form. */
  lemma {:induction false} LookupIgnoresCase<T>(table: seq<(string, T)>, a: string, b: string)
    requires EqualsIgnoreCase(a, b)
    ensures KeywordLookup(table, a) == KeywordLookup(table, b)
  {
    if table != [] {
      LookupIgnoresCase(table[1..], a, b);
    }
  }

  /** `Known_Attributes`. */
  const KnownAttributes: seq<(string, AttrType)> := [
    ("profile", Profile), ("pub", Public), ("always", Always), ("requires", Requires),
    ("then", Then), ("map", Map), ("multithread", Multithread), ("main", MainTask),
    ("interpreter", Interpreter), ("cache", Cache), ("echo", Echo), ("exclude", Exclude),
    ("glob", Glob), ("ifos", IfOs)]

  /** `_attributes`: the names offered as hints. */
  const AttributeNames: seq<string> := [
    "profile", "pub", "always", "requires", "then", "map", "multithread", "main",
    "interpreter", "cache", "echo", "exclude", "glob", "ifos"]

  /** `_cache`: the keywords of `@cache`. */
  const CacheKeywords: seq<string> := ["track", "store", "untrack"]

  /** Every entry of the table names a known type. */
  lemma KnownAttributesKnown()
    ensures forall i :: 0 <= i < |KnownAttributes| ==> KnownAttributes[i].1 != Unknown
  {
  }

  /** The attribute type of a name; `ATTRIBUTE__UNKNOWN` for any other. */
  function ResolveAttribute(name: string): (t: AttrType)
    ensures t == Unknown <==> forall i :: 0 <= i < |KnownAttributes| ==> !EqualsIgnoreCase(KnownAttributes[i].0, name)
    ensures t != Unknown ==> exists i :: 0 <= i < |KnownAttributes| && EqualsIgnoreCase(KnownAttributes[i].0, name) && t == KnownAttributes[i].1
  {
    KnownAttributesKnown();
    match KeywordLookup(KnownAttributes, name)
    case Some(t) => t
    case None => Unknown
  }

  datatype UsingType = UseProfiles | UseDefault | UseThreads

  /** `Known_Usings`; the interpreter rule also lists the attribute names
      it accepts. */
  const KnownUsings: seq<(string, UsingType)> := [
    ("profiles", UseProfiles), ("default", UseDefault), ("threads", UseThreads)]

  /** `_usings`. */
  const UsingNames: seq<string> := ["profiles", "default", "threads"]

  /** The `valid_attr` list of the `default` rule. */
  const InterpreterAttrs: seq<string> := ["interpreter"]

  // ---------------------------------------------------------------------
  // Attribute rules
  // ---------------------------------------------------------------------

  datatype Qualificator = NoProperty | RequiredProperty
  datatype Count = Zero | One | Unlimited
  datatype Target = TaskTarget | VariableTarget

  datatype AttrRule = AttrRule(qual: Qualificator, count: Count, targets: set<Target>)

  /** `_attr_rules`, as the constructor fills it. The unknown type never
      reaches the table; it gets an empty rule. */
  function RuleOf(t: AttrType): AttrRule {
    match t
    case Profile     => AttrRule(RequiredProperty, One, {TaskTarget, VariableTarget})
    case Public      => AttrRule(NoProperty, Zero, {TaskTarget, VariableTarget})
    case Always      => AttrRule(NoProperty, Zero, {TaskTarget})
    case Requires    => AttrRule(RequiredProperty, Unlimited, {TaskTarget})
    case Then        => AttrRule(RequiredProperty, Unlimited, {TaskTarget})
    case Map         => AttrRule(RequiredProperty, One, {VariableTarget})
    case Exclude     => AttrRule(RequiredProperty, One, {VariableTarget})
    case Glob        => AttrRule(NoProperty, Zero, {VariableTarget})
    case Multithread => AttrRule(NoProperty, Zero, {TaskTarget})
    case MainTask    => AttrRule(NoProperty, Zero, {TaskTarget})
    case Interpreter => AttrRule(RequiredProperty, One, {TaskTarget})
    case Cache       => AttrRule(RequiredProperty, Unlimited, {TaskTarget})
    case Echo        => AttrRule(NoProperty, Zero, {TaskTarget})
    case IfOs        => AttrRule(RequiredProperty, One, {VariableTarget})
    case Unknown     => AttrRule(NoProperty, Zero, {})
  }

  /** The number of properties the rule lets through. */
  predicate CountFits(rule: AttrRule, n: nat) {
    if rule.qual == RequiredProperty then n > 0 && (n == 1 || rule.count != One) else n == 0
  }

  /** An attribute as `Collect_Attribute` stages it: a known type with a
      fitting number of properties, and for `@cache` a keyword and at
      least one more property. */
  predicate Admitted(a: Attribute) {
    && a.kind != Unknown && CountFits(RuleOf(a.kind), |a.props|)
    && (a.kind == Cache ==> |a.props| > 1 && a.props[0] in CacheKeywords)
  }

  /** A `PROFILE` or `IFOS` attribute that was admitted has exactly one
      property, so `props[0]` names the profile or the OS. */
  lemma OneProperty(a: Attribute)
    requires Admitted(a) && (a.kind == Profile || a.kind == IfOs || a.kind == Map || a.kind == Exclude)
    ensures |a.props| == 1
  {
  }

  // ---------------------------------------------------------------------
  // Results
  // ---------------------------------------------------------------------

  datatype SemErr =
    | UnknownAttribute | OptionRequired | OneOption | NoOption
    | UndeclaredProfile | UndeclaredVariable | InvalidOs
    | MissingCacheArgs | InvalidCacheKeyword
    | NotForVariable
    | UnknownUsing | InterpreterMissing | UnknownInterpreterAttr | InterpreterPathMissing | InterpreterNotFound
    | ProfilesMissing | ProfileIsPlatform | DuplicateProfile
    | ThreadsCount | ThreadsValue

  /** `SemanticOutput`: success, or an error with an optional hint. */
  datatype Output = Ok | Nok(err: SemErr, hint: Option<string>)

  /** The size_t maximum, the default `max_distance` of `FindClosest`. */
  const SizeMax: nat := SizeMod - 1

  /** The property-count checks of `Collect_Attribute`: a required
      property that is missing, more than one where one is allowed, or any
      where none is allowed. */
  function CountError(rule: AttrRule, n: nat): (r: Option<SemErr>)
    ensures r.None? <==> CountFits(rule, n)
    ensures r.Some? ==> r.value in {OptionRequired, OneOption, NoOption}
  {
    if rule.qual == RequiredProperty && n == 0 then Some(OptionRequired)
    else if rule.qual == RequiredProperty && n != 1 && rule.count == One then Some(OneOption)
    else if rule.qual == NoProperty && n > 0 then Some(NoOption)
    else None
  }

  /** The checks of the first property that follow: a declared profile, a
      declared variable, an OS name, or a `@cache` keyword followed by at
      least one more property. `vars` are the keys of the variable table
      and `os` the OS names. */
  function PropertyError(t: AttrType, props: seq<string>, profiles: seq<string>, vars: set<string>, os: set<string>): Option<SemErr>
    requires t != Unknown && CountFits(RuleOf(t), |props|)
  {
    if t == Profile && props[0] !in profiles then Some(UndeclaredProfile)
    else if (t == Map || t == Exclude) && props[0] !in vars then Some(UndeclaredVariable)
    else if t == IfOs && props[0] !in os then Some(InvalidOs)
    else if t == Cache && |props| == 1 then Some(MissingCacheArgs)
    else if t == Cache && props[0] !in CacheKeywords then Some(InvalidCacheKeyword)
    else None
  }

  /** The checks of `Collect_Attribute`, in the order it makes them: the
      first that fails, or none. */
  function AttributeError(t: AttrType, props: seq<string>, profiles: seq<string>, vars: set<string>, os: set<string>): Option<SemErr> {
    if t == Unknown then Some(UnknownAttribute)
    else if CountError(RuleOf(t), |props|).Some? then CountError(RuleOf(t), |props|)
    else PropertyError(t, props, profiles, vars, os)
  }

  /** An attribute that passes every check is one `Admitted` describes,
      and a `PROFILE`, `MAP`/`EXCLUDE` or `IFOS` property names a declared
      profile, a declared variable or an OS. */
  lemma AcceptedAttribute(name: string, t: AttrType, props: seq<string>, profiles: seq<string>, vars: set<string>, os: set<string>)
    requires AttributeError(t, props, profiles, vars, os).None?
    ensures Admitted(Attribute(name, t, props))
    ensures t == Profile ==> |props| == 1 && props[0] in profiles
    ensures (t == Map || t == Exclude) ==> |props| == 1 && props[0] in vars
    ensures t == IfOs ==> |props| == 1 && props[0] in os
  {
  }

  /** The property-count rules: a required property that is missing, more
      than one where one is allowed, or any where none is allowed, is
      refused before anything else is looked at. */
  lemma CountRules(t: AttrType, props: seq<string>, profiles: seq<string>, vars: set<string>, os: set<string>)
    requires t != Unknown
    ensures RuleOf(t).qual == RequiredProperty && |props| == 0 ==>
              AttributeError(t, props, profiles, vars, os) == Some(OptionRequired)
    ensures RuleOf(t).qual == RequiredProperty && RuleOf(t).count == One && |props| > 1 ==>
              AttributeError(t, props, profiles, vars, os) == Some(OneOption)
    ensures RuleOf(t).qual == NoProperty && |props| > 0 ==>
              AttributeError(t, props, profiles, vars, os) == Some(NoOption)
    ensures !CountFits(RuleOf(t), |props|) <==>
              AttributeError(t, props, profiles, vars, os) in {Some(OptionRequired), Some(OneOption), Some(NoOption)}
  {
  }

  /** The key a variable is stored under: mangled with the property of its
      first `PROFILE` attribute, otherwise with that of its first `IFOS`
      attribute, otherwise its own name. */
  function AssignKey(name: string, attrs: seq<Attribute>): string
    requires forall i :: 0 <= i < |attrs| ==> Admitted(attrs[i])
  {
    var p := FirstOfType(attrs, Profile);
    var o := FirstOfType(attrs, IfOs);
    if p < |attrs| then OneProperty(attrs[p]); GenerateMangling(name, attrs[p].props[0])
    else if o < |attrs| then OneProperty(attrs[o]); GenerateMangling(name, attrs[o].props[0])
    else name
  }

  /** Every attribute of the list may be put on a variable. */
  predicate ForVariables(attrs: seq<Attribute>) {
    forall i :: 0 <= i < |attrs| ==> VariableTarget in RuleOf(attrs[i].kind).targets
  }

  // ---------------------------------------------------------------------
  // using threads
  // ---------------------------------------------------------------------

  const IntMax: int := 0x7FFF_FFFF
  const IntMin: int := -0x8000_0000

  /** `std::from_chars` into an `int` that consumes the whole string: an
      optional minus sign and at least one digit, in range; none otherwise
      (an error code, or a pointer short of the end). */
  function FromChars(s: string): Option<int> {
    if |s| > 0 && s[0] == '-' then
      if |s| > 1 && AllDigits(s[1..]) && 0 - DecimalValue(s[1..]) >= IntMin then Some(0 - DecimalValue(s[1..])) else None
    else if |s| > 0 && AllDigits(s) && DecimalValue(s) <= IntMax then Some(DecimalValue(s))
    else None
  }

  /** The thread count is accepted exactly when the option is a non-empty
      string of digits whose value is between 1 and INT_MAX: a sign makes
      the value negative or zero, anything else stops the parse short. */
  lemma ThreadsAccepted(s: string)
    ensures (FromChars(s).Some? && FromChars(s).value > 0) <==>
              (|s| > 0 && AllDigits(s) && 0 < DecimalValue(s) <= IntMax)
  {
    if |s| > 0 && s[0] == '-' {
      assert !IsDigit(s[0]);
    }
  }

  /** `using default`: an attribute name the rule lists, then a path to
      a file that exists. */
  predicate InterpreterAccepted(options: seq<string>, files: set<string>) {
    |options| > 1 && options[0] in InterpreterAttrs && options[1] in files
  }

  /** `using profiles`: at least one name, none of them an OS or an
      architecture name, and no name declared twice. */
  predicate ProfilesAccepted(declared: seq<string>, options: seq<string>, os: set<string>, arch: set<string>) {
    && |options| > 0 && NoDup(declared + options)
    && forall i :: 0 <= i < |options| ==> options[i] !in os && options[i] !in arch
  }

  /** `using threads`: exactly one option, a positive `int`. */
  predicate ThreadsAcceptedBy(options: seq<string>) {
    |options| == 1 && FromChars(options[0]).Some? && FromChars(options[0]).value > 0
  }

  /** Duplicate-free list. */
  predicate NoDup(s: seq<string>) {
    forall i, j :: 0 <= i < j < |s| ==> s[i] != s[j]
  }

  // ---------------------------------------------------------------------
  // Asserts
  // ---------------------------------------------------------------------

  datatype AssertType = MessageAssert | ActionsAssert
  datatype CheckType = Equal | NotEqual | In | Dependencies

  /** `AssertCheck`. The operator is none when it is neither "eq", "ne"
      nor "in": `Collect_Assert` then leaves the field as constructed and
      the evaluation matches none of its cases. */
  datatype AssertCheck = AssertCheck(
    line: nat, stmt: string, lvalue: string, rvalue: string,
    kind: AssertType, reason: string, actions: seq<string>,
    check: Option<CheckType>, searchPath: string)

  /** Whether an assert fails; `paths` are the paths that exist. */
  predicate Fails(a: AssertCheck, paths: set<string>) {
    match a.check
    case Some(Equal) => a.lvalue != a.rvalue
    case Some(NotEqual) => a.lvalue == a.rvalue
    case Some(In) => !Contains(a.rvalue, a.lvalue)
    case Some(Dependencies) => a.searchPath !in paths
    case None => false
  }

  /** The index of the first failing `MESSAGE` assert, |checks| if none. */
  function FirstStop(checks: seq<AssertCheck>, paths: set<string>): (k: nat)
    ensures k <= |checks|
    ensures k < |checks| ==> Fails(checks[k], paths) && checks[k].kind == MessageAssert
    ensures forall i :: 0 <= i < k ==> !(Fails(checks[i], paths) && checks[i].kind == MessageAssert)
  {
    if checks == [] then 0
    else if Fails(checks[0], paths) && checks[0].kind == MessageAssert then 0
    else 1 + FirstStop(checks[1..], paths)
  }

  /** The recovery callbacks of the failing `ACTIONS` asserts, in order. */
  function Recovery(checks: seq<AssertCheck>, paths: set<string>): seq<string> {
    if checks == [] then []
    else
      var last := checks[|checks| - 1];
      Recovery(checks[..|checks| - 1], paths) + (if Fails(last, paths) && last.kind == ActionsAssert then last.actions else [])
  }

  /** The indices of the failing asserts, in order. */
  function Failing(checks: seq<AssertCheck>, paths: set<string>): (r: seq<nat>)
    ensures forall j :: 0 <= j < |r| ==> r[j] < |checks| && Fails(checks[r[j]], paths)
    ensures forall i :: 0 <= i < |checks| && Fails(checks[i], paths) ==> i in r
  {
    if checks == [] then []
    else
      var rest := Failing(checks[..|checks| - 1], paths);
      var k := |checks| - 1;
      assert forall i :: 0 <= i < k ==> checks[..k][i] == checks[i];
      rest + (if Fails(checks[k], paths) then [k] else [])
  }

  /** What `ExecuteAsserts` reports: the failing asserts up to and
      including the first failing `MESSAGE` one. The text of the report is
      not modelled. */
  function Report(checks: seq<AssertCheck>, paths: set<string>): seq<nat> {
    var k := FirstStop(checks, paths);
    Failing(checks[..if k < |checks| then k + 1 else k], paths)
  }

  /** The evaluation reports an error exactly when some assert fails: a
      failure before the first failing `MESSAGE` assert is reported, and
      that one is reported too. */
  lemma ReportIff(checks: seq<AssertCheck>, paths: set<string>)
    ensures |Report(checks, paths)| > 0 <==> exists i :: 0 <= i < |checks| && Fails(checks[i], paths)
  {
    var k := FirstStop(checks, paths);
    var n := if k < |checks| then k + 1 else k;
    if exists i :: 0 <= i < |checks| && Fails(checks[i], paths) {
      var i :| 0 <= i < |checks| && Fails(checks[i], paths);
      if i < n {
        assert checks[..n][i] == checks[i];
        assert i in Report(checks, paths);
      } else {
        assert checks[..n][k] == checks[k];
        assert k in Report(checks, paths);
      }
    }
    if |Report(checks, paths)| > 0 {
      var j := Report(checks, paths)[0];
      assert checks[..n][j] == checks[j];
    }
  }

  /** Without a failing `MESSAGE` assert every failing `ACTIONS` assert
      schedules its callbacks; callbacks are only ever scheduled by failing
      `ACTIONS` asserts. */
  lemma {:induction false} RecoveryFromActions(checks: seq<AssertCheck>, paths: set<string>, x: string)
    ensures x in Recovery(checks, paths) <==>
              exists i :: 0 <= i < |checks| && Fails(checks[i], paths) && checks[i].kind == ActionsAssert && x in checks[i].actions
  {
    if checks != [] {
      var init := checks[..|checks| - 1];
      RecoveryFromActions(init, paths, x);
      assert forall i :: 0 <= i < |init| ==> init[i] == checks[i];
    }
  }

  // ---------------------------------------------------------------------
  // The engine
  // ---------------------------------------------------------------------

  /** The value of a variable: its name and its value text. */
  datatype Assign = Assign(varName: string, varValue: string)

  /** `Semantic::Engine` with the parts of its environment the collectors
      write: the pending attributes, the variable table, the declared
      profiles, the default interpreter, the thread count and the asserts. */
  class Engine {
    var pending: seq<Attribute>
    const vtable: Table<Assign>
    var profiles: seq<string>
    var defaultInterpreter: string
    var maxThreads: int
    var atable: seq<AssertCheck>

    ghost predicate Valid()
      reads this, vtable
    {
      && vtable.Valid()
      && (forall i :: 0 <= i < |pending| ==> Admitted(pending[i]))
      && NoDup(profiles)
    }

    constructor ()
      ensures Valid() && fresh(vtable)
      ensures pending == [] && vtable.contents == map[] && profiles == [] && atable == []
    {
      pending := [];
      vtable := new Table<Assign>();
      profiles := [];
      defaultInterpreter := "";
      maxThreads := 0;
      atable := [];
    }

    /** `Collect_Attribute`: resolve the name, check the properties and
        stage the attribute for the next variable or task. */
    method CollectAttribute(name: string, prop: string, os: set<string>) returns (out: Output)
      requires Valid()
      modifies this
      ensures Valid()
      ensures unchanged(vtable) && profiles == old(profiles) && atable == old(atable)
      ensures defaultInterpreter == old(defaultInterpreter) && maxThreads == old(maxThreads)
      ensures var props := Tokens(prop, ' ');
              var err := AttributeError(ResolveAttribute(name), props, profiles, vtable.contents.Keys, os);
              && (out.Ok? <==> err.None?)
              && (out.Nok? ==> out.err == err.value)
              && (out.Ok? ==> pending == old(pending) + [Attribute(name, ResolveAttribute(name), props)])
              && (out.Nok? ==> pending == old(pending))
    {
      var property := Split(prop, ' ');
      var attr := ResolveAttribute(name);
      if attr == Unknown {
        var hint := FindClosest(AttributeNames, name, SizeMax);
        return Nok(UnknownAttribute, hint);
      }
      var countError := CountError(RuleOf(attr), |property|);
      if countError.Some? {
        return Nok(countError.value, None);
      }
      out := CheckProperty(attr, property, os);
      if out.Ok? {
        AcceptedAttribute(name, attr, property, profiles, vtable.contents.Keys, os);
        pending := pending + [Attribute(name, attr, property)];
      }
    }

    /** The checks `Collect_Attribute` makes on the first property. */
    method CheckProperty(attr: AttrType, property: seq<string>, os: set<string>) returns (out: Output)
      requires vtable.Valid() && attr != Unknown && CountFits(RuleOf(attr), |property|)
      ensures out.Ok? <==> PropertyError(attr, property, profiles, vtable.contents.Keys, os).None?
      ensures out.Nok? ==> out.err == PropertyError(attr, property, profiles, vtable.contents.Keys, os).value
    {
      if attr == Profile {
        if property[0] !in profiles {
          var hint := FindClosest(profiles, property[0], SizeMax);
          return Nok(UndeclaredProfile, hint);
        }
      } else if attr == Map || attr == Exclude {
        var keys := vtable.Keys();
        if property[0] !in keys {
          var hint := FindClosest(keys, property[0], SizeMax);
          return Nok(UndeclaredVariable, hint);
        }
      } else if attr == IfOs {
        if property[0] !in os {
          return Nok(InvalidOs, None);
        }
      } else if attr == Cache {
        if |property| == 1 {
          return Nok(MissingCacheArgs, None);
        }
        if property[0] !in CacheKeywords {
          var hint := FindClosest(CacheKeywords, property[0], SizeMax);
          return Nok(InvalidCacheKeyword, hint);
        }
      }
      return Ok;
    }

    /** `Collect_Assignment` without `join`: the pending attributes move
        onto the variable (pending is cleared either way), each must allow
        variables, and the variable is stored under its profile's or OS's
        mangled name, or its own. */
    method CollectAssignment(name: string, val: string) returns (out: Output)
      requires Valid()
      modifies this, vtable
      ensures Valid()
      ensures pending == [] && profiles == old(profiles) && atable == old(atable)
      ensures defaultInterpreter == old(defaultInterpreter) && maxThreads == old(maxThreads)
      ensures out.Ok? <==> ForVariables(old(pending))
      ensures out.Nok? ==> out == Nok(NotForVariable, None) && vtable.contents == old(vtable.contents)
      ensures out.Ok? ==>
                vtable.contents == old(vtable.contents)[AssignKey(name, old(pending)) := Item(old(pending), Assign(name, val))]
    {
      var attrs := pending;
      var assign := Item(attrs, Assign(name, val));
      pending := [];
      var i := 0;
      while i < |attrs|
        invariant i <= |attrs|
        invariant ForVariables(attrs[..i])
      {
        if VariableTarget !in RuleOf(attrs[i].kind).targets {
          return Nok(NotForVariable, None);
        }
        i := i + 1;
      }
      assert attrs[..i] == attrs;
      var p := FirstOfType(attrs, Profile);
      var o := FirstOfType(attrs, IfOs);
      if p < |attrs| {
        vtable.Put(GenerateMangling(name, attrs[p].props[0]), assign);
      } else if o < |attrs| {
        vtable.Put(GenerateMangling(name, attrs[o].props[0]), assign);
      } else {
        vtable.Put(name, assign);
      }
      return Ok;
    }

    /** `Collect_Using`: `using default interpreter <path>`, `using
        profiles <names>` or `using threads <n>`. `os` and `arch` are the
        OS and architecture names, `files` the files that exist. */
    method CollectUsing(what: string, opt: string, os: set<string>, arch: set<string>, files: set<string>)
      returns (out: Output)
      requires Valid()
      modifies this
      ensures Valid()
      ensures unchanged(vtable) && pending == old(pending) && atable == old(atable)
      ensures var rule := KeywordLookup(KnownUsings, what);
              && (rule.None? ==> out.Nok? && out.err == UnknownUsing)
              && (rule != Some(UseProfiles) ==> profiles == old(profiles))
              && (rule != Some(UseDefault) ==> defaultInterpreter == old(defaultInterpreter))
              && (rule != Some(UseThreads) ==> maxThreads == old(maxThreads))
      ensures var options := Tokens(opt, ' ');
              KeywordLookup(KnownUsings, what) == Some(UseDefault) ==>
                && (out.Ok? <==> InterpreterAccepted(options, files))
                && defaultInterpreter == (if out.Ok? then options[1] else old(defaultInterpreter))
      ensures var options := Tokens(opt, ' ');
              KeywordLookup(KnownUsings, what) == Some(UseProfiles) ==>
                && (out.Ok? <==> ProfilesAccepted(old(profiles), options, os, arch))
                && (out.Ok? ==> profiles == old(profiles) + options)
                && (exists k :: 0 <= k <= |options| && profiles == old(profiles) + options[..k])
      ensures var options := Tokens(opt, ' ');
              KeywordLookup(KnownUsings, what) == Some(UseThreads) ==>
                && (out.Ok? <==> ThreadsAcceptedBy(options))
                && maxThreads == (if out.Ok? then FromChars(options[0]).value else old(maxThreads))
    {
      var options := Split(opt, ' ');
      var rule := KeywordLookup(KnownUsings, what);
      if rule.None? {
        var hint := FindClosest(UsingNames, what, SizeMax);
        return Nok(UnknownUsing, hint);
      }
      if rule.value == UseDefault {
        out := UseInterpreter(options, files);
      } else if rule.value == UseProfiles {
        if |options| == 0 {
          assert profiles == old(profiles) + options[..0];
          return Nok(ProfilesMissing, None);
        }
        out := AddProfiles(options, os, arch);
      } else {
        out := UseThreadCount(options);
      }
    }

    /** `using default interpreter <path>`. */
    method UseInterpreter(options: seq<string>, files: set<string>) returns (out: Output)
      modifies this
      ensures pending == old(pending) && atable == old(atable) && profiles == old(profiles) && maxThreads == old(maxThreads)
      ensures out.Ok? <==> InterpreterAccepted(options, files)
      ensures defaultInterpreter == (if out.Ok? then options[1] else old(defaultInterpreter))
    {
      if |options| == 0 {
        return Nok(InterpreterMissing, None);
      }
      if options[0] !in InterpreterAttrs {
        var hint := FindClosest(InterpreterAttrs, options[0], SizeMax);
        return Nok(UnknownInterpreterAttr, hint);
      }
      if |options| == 1 {
        return Nok(InterpreterPathMissing, None);
      }
      if options[1] !in files {
        return Nok(InterpreterNotFound, None);
      }
      defaultInterpreter := options[1];
      return Ok;
    }

    /** `using threads <n>`. */
    method UseThreadCount(options: seq<string>) returns (out: Output)
      modifies this
      ensures pending == old(pending) && atable == old(atable) && profiles == old(profiles)
      ensures defaultInterpreter == old(defaultInterpreter)
      ensures out.Ok? <==> ThreadsAcceptedBy(options)
      ensures maxThreads == (if out.Ok? then FromChars(options[0]).value else old(maxThreads))
    {
      if |options| != 1 {
        return Nok(ThreadsCount, None);
      }
      var parsed := FromChars(options[0]);
      if parsed.None? || parsed.value <= 0 {
        return Nok(ThreadsValue, None);
      }
      maxThreads := parsed.value;
      return Ok;
    }

    /** The loop of `using profiles`: each name is appended unless it is an
        OS or architecture name or already declared, which stops the loop
        with the names before it kept. */
    method AddProfiles(options: seq<string>, os: set<string>, arch: set<string>) returns (out: Output)
      requires NoDup(profiles) && |options| > 0
      modifies this
      ensures NoDup(profiles)
      ensures pending == old(pending) && atable == old(atable)
      ensures defaultInterpreter == old(defaultInterpreter) && maxThreads == old(maxThreads)
      ensures out.Ok? <==> ProfilesAccepted(old(profiles), options, os, arch)
      ensures out.Ok? ==> profiles == old(profiles) + options
      ensures exists k :: 0 <= k <= |options| && profiles == old(profiles) + options[..k]
    {
      var iter := 0;
      while iter < |options|
        invariant iter <= |options|
        invariant profiles == old(profiles) + options[..iter] && NoDup(profiles)
        invariant forall i :: 0 <= i < iter ==> options[i] !in os && options[i] !in arch
        invariant pending == old(pending) && atable == old(atable)
        invariant defaultInterpreter == old(defaultInterpreter) && maxThreads == old(maxThreads)
      {
        var name := options[iter];
        if name in os || name in arch {
          return Nok(ProfileIsPlatform, None);
        } else if name !in profiles {
          assert options[..iter + 1] == options[..iter] + [name];
          profiles := profiles + [name];
        } else {
          DuplicateBlocks(old(profiles), options, iter);
          return Nok(DuplicateProfile, None);
        }
        iter := iter + 1;
      }
      assert options[..iter] == options;
      return Ok;
    }

    /** `Collect_Assert`: store the assert with its operator and, for an
        `ACTIONS` assert, the recovery tasks listed in its reason. */
    method CollectAssert(line: nat, stmt: string, lvalue: string, op: string, rvalue: string, reason: string, actions: bool)
      returns (out: Output)
      requires Valid()
      modifies this
      ensures Valid() && out == Ok
      ensures unchanged(vtable) && pending == old(pending) && profiles == old(profiles)
      ensures defaultInterpreter == old(defaultInterpreter) && maxThreads == old(maxThreads)
      ensures |atable| == |old(atable)| + 1 && atable[..|old(atable)|] == old(atable)
      ensures var a := atable[|old(atable)|];
              && a.line == line && a.stmt == stmt && a.lvalue == lvalue && a.rvalue == rvalue
              && a.kind == (if actions then ActionsAssert else MessageAssert)
              && (actions ==> a.actions == Tokens(reason, ' '))
              && (!actions ==> a.reason == reason)
              && a.check == (if op == "eq" then Some(Equal) else if op == "ne" then Some(NotEqual)
                             else if op == "in" then Some(In) else None)
    {
      var acheck := AssertCheck(line, stmt, lvalue, rvalue, MessageAssert, "", [], None, "");
      if actions {
        var list := Split(reason, ' ');
        acheck := acheck.(kind := ActionsAssert, actions := list);
      } else {
        acheck := acheck.(kind := MessageAssert, reason := reason);
      }
      if op == "eq" {
        acheck := acheck.(check := Some(Equal));
      } else if op == "ne" {
        acheck := acheck.(check := Some(NotEqual));
      } else if op == "in" {
        acheck := acheck.(check := Some(In));
      }
      atable := atable + [acheck];
      return Ok;
    }

    /** `ExecuteAsserts`: evaluate the asserts in order. A failing
        `MESSAGE` assert ends the evaluation; a failing `ACTIONS` assert
        schedules its recovery tasks. The result lists the failing asserts
        (none when nothing failed) and the callbacks scheduled. */
    method ExecuteAsserts(paths: set<string>) returns (report: Option<seq<nat>>, recoCb: seq<string>)
      ensures report.None? <==> forall i :: 0 <= i < |atable| ==> !Fails(atable[i], paths)
      ensures report.Some? ==> report.value == Report(atable, paths)
      ensures recoCb == Recovery(atable[..FirstStop(atable, paths)], paths)
    {
      var failed: seq<nat> := [];
      recoCb := [];
      var i := 0;
      while i < |atable|
        invariant i <= FirstStop(atable, paths)
        invariant failed == Failing(atable[..i], paths)
        invariant recoCb == Recovery(atable[..i], paths)
      {
        var a := atable[i];
        var assertFailed := Evaluate(a, paths);
        assert atable[..i + 1][..i] == atable[..i];
        if assertFailed {
          failed := failed + [i];
          if a.kind == MessageAssert {
            assert FirstStop(atable, paths) == i;
            ReportIff(atable, paths);
            return Some(failed), recoCb;
          } else {
            recoCb := recoCb + a.actions;
          }
        }
        i := i + 1;
      }
      assert atable[..i] == atable;
      ReportIff(atable, paths);
      if |failed| > 0 {
        return Some(failed), recoCb;
      }
      return None, recoCb;
    }
  }

  /** One assert of `ExecuteAsserts`: whether it fails. */
  method Evaluate(a: AssertCheck, paths: set<string>) returns (failed: bool)
    ensures failed == Fails(a, paths)
  {
    failed := false;
    match a.check {
      case Some(Equal) => failed := a.lvalue != a.rvalue;
      case Some(NotEqual) => failed := a.lvalue == a.rvalue;
      case Some(In) => var found := Find(a.rvalue, a.lvalue); failed := found.None?;
      case Some(Dependencies) => failed := a.searchPath !in paths;
      case None =>
    }
  }

  /** A name already declared, or repeated among the options, makes the
      list that would result from appending all of them contain a
      duplicate. */
  lemma DuplicateBlocks(p0: seq<string>, options: seq<string>, iter: nat)
    requires iter < |options| && options[iter] in p0 + options[..iter]
    ensures !NoDup(p0 + options)
  {
    var all := p0 + options;
    var j :| 0 <= j < |p0 + options[..iter]| && (p0 + options[..iter])[j] == options[iter];
    assert all[j] == options[iter] == all[|p0| + iter];
  }
}
