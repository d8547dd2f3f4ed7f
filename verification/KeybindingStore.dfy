/**
 * The persisted keybinding rules: loading, the startup backfill of defaults, and the upsert
 * and removal of one rule, with the cached bindings that must agree with the file.
 */
module KeybindingStore {
  import opened Options
  import KeyShortcuts
  import WhenExpressions

  const MAX_RULES := 256

  datatype Rule = Rule(key: string, command: string, when_: Option<string>)

  datatype Resolved = Resolved(command: string, shortcut: KeyShortcuts.Shortcut, whenAst: Option<WhenExpressions.Node>)

  /** An entry of the file: a rule, or `None` when it does not have the shape of one. */
  datatype File = Missing | Malformed | Entries(entries: seq<Option<Rule>>)

  datatype Issue = MalformedConfig | InvalidEntry(index: nat)

  datatype State = State(bindings: seq<Resolved>, issues: seq<Issue>)

  function Compile(r: Rule): Option<Resolved> {
    match KeyShortcuts.Parse(r.key)
    case None => None
    case Some(shortcut) =>
      match r.when_
      case None => Some(Resolved(r.command, shortcut, None))
      case Some(text) =>
        match WhenExpressions.Parse(text)
        case None => None
        case Some(ast) => Some(Resolved(r.command, shortcut, Some(ast)))
  }

  function Compete(a: Rule, b: Rule): bool {
    KeyShortcuts.SameContext(a.key, a.when_.GetOr(""), b.key, b.when_.GetOr(""))
  }

  lemma CompiledConditionHasNoNul(r: Rule)
    requires Compile(r).Some?
    ensures KeyShortcuts.Parse(r.key).Some? && '\0' !in r.when_.GetOr("")
    ensures r.when_.Some? ==> r.when_.value != ""
  {
    if r.when_.Some? {
      WhenExpressions.ParsedHasNoNul(r.when_.value);
    }
  }

  /**
   * Rules that compile, as the startup backfill compares them, compete exactly when their keys
   * denote the same shortcut and their conditions are the same text.
   */
  lemma CompeteExactly(a: Rule, b: Rule)
    requires Compile(a).Some? && Compile(b).Some?
    ensures Compete(a, b) <==> KeyShortcuts.Parse(a.key) == KeyShortcuts.Parse(b.key) && a.when_ == b.when_
  {
    CompiledConditionHasNoNul(a);
    CompiledConditionHasNoNul(b);
    KeyShortcuts.SameContextUnderConditions(a.key, a.when_.GetOr(""), b.key, b.when_.GetOr(""));
  }

  /**
   * How rules are compiled and when two of them compete for a shortcut. Everything below holds
   * for any such pair of functions; the store uses the real ones.
   */
  datatype Codec = Codec(compile: Rule -> Option<Resolved>, conflicts: (Rule, Rule) -> bool) {
    predicate Usable(e: Option<Rule>) {
      e.Some? && compile(e.value).Some?
    }

    function Last<T>(xs: seq<T>, count: nat): (r: seq<T>)
      ensures |r| == if |xs| > count then count else |xs|
    {
      if |xs| > count then xs[|xs| - count..] else xs
    }

    function Compiled(rules: seq<Rule>): seq<Resolved> {
      if rules == [] then []
      else
        var r := compile(rules[|rules| - 1]);
        Compiled(rules[..|rules| - 1]) + if r.Some? then [r.value] else []
    }

    function CompileAll(rules: seq<Rule>): seq<Resolved> {
      Last(Compiled(rules), MAX_RULES)
    }

    function WithoutCommands(bindings: seq<Resolved>, commands: set<string>): seq<Resolved> {
      if bindings == [] then []
      else
        var b := bindings[|bindings| - 1];
        WithoutCommands(bindings[..|bindings| - 1], commands) + if b.command in commands then [] else [b]
    }

    function BoundCommands(bindings: seq<Resolved>): set<string> {
      set i | 0 <= i < |bindings| :: bindings[i].command
    }

    /** Custom bindings replace the defaults of their commands; the latest rules are kept. */
    function MergeWithDefaults(defaults: seq<Rule>, custom: seq<Resolved>): seq<Resolved> {
      if custom == [] then CompileAll(defaults)
      else Last(WithoutCommands(CompileAll(defaults), BoundCommands(custom)) + custom, MAX_RULES)
    }

    function RulesOf(entries: seq<Option<Rule>>): seq<Rule> {
      if entries == [] then []
      else
        var e := entries[|entries| - 1];
        RulesOf(entries[..|entries| - 1]) + if Usable(e) then [e.value] else []
    }

    function IssuesOf(entries: seq<Option<Rule>>): seq<Issue> {
      if entries == [] then []
      else
        var last := |entries| - 1;
        IssuesOf(entries[..last]) + if Usable(entries[last]) then [] else [InvalidEntry(last)]
    }

    function FileRules(f: File): seq<Rule> {
      if f.Entries? then RulesOf(f.entries) else []
    }

    function FileIssues(f: File): seq<Issue> {
      match f
      case Missing => []
      case Malformed => [MalformedConfig]
      case Entries(entries) => IssuesOf(entries)
    }

    /** What the runtime loads from a file. */
    function LoadState(defaults: seq<Rule>, f: File): State {
      State(MergeWithDefaults(defaults, CompileAll(FileRules(f))), FileIssues(f))
    }

    function Written(rules: seq<Rule>): (f: File)
      ensures f.Entries? && |f.entries| == |rules| && forall i :: 0 <= i < |rules| ==> f.entries[i] == Some(rules[i])
    {
      Entries(seq(|rules|, i requires 0 <= i < |rules| => Some(rules[i])))
    }

    predicate AllCompile(rules: seq<Rule>) {
      forall i :: 0 <= i < |rules| ==> compile(rules[i]).Some?
    }

    lemma LoadSnoc(rules: seq<Rule>, r: Rule)
      ensures RulesOf(Written(rules + [r]).entries) == RulesOf(Written(rules).entries) + if Usable(Some(r)) then [r] else []
      ensures IssuesOf(Written(rules + [r]).entries)
              == IssuesOf(Written(rules).entries) + if Usable(Some(r)) then [] else [InvalidEntry(|rules|)]
    {
      assert Written(rules + [r]).entries[..|rules|] == Written(rules).entries;
    }

    lemma CompiledSnoc(rules: seq<Rule>, r: Rule)
      ensures Compiled(rules + [r]) == Compiled(rules) + if compile(r).Some? then [compile(r).value] else []
    {
      assert (rules + [r])[..|rules|] == rules;
    }

    lemma {:induction false} WriteThenCompile(rules: seq<Rule>)
      ensures Compiled(RulesOf(Written(rules).entries)) == Compiled(rules)
    {
      if rules != [] {
        var front, last := rules[..|rules| - 1], rules[|rules| - 1];
        assert rules == front + [last];
        WriteThenCompile(front);
        LoadSnoc(front, last);
        CompiledSnoc(front, last);
        var loaded := RulesOf(Written(front).entries);
        CompiledSnoc(loaded, last);
        assert RulesOf(Written(rules).entries) == if Usable(Some(last)) then loaded + [last] else loaded;
      }
    }

    lemma {:induction false} WriteThenIssues(rules: seq<Rule>)
      ensures IssuesOf(Written(rules).entries) == [] <==> AllCompile(rules)
      ensures AllCompile(rules) ==> RulesOf(Written(rules).entries) == rules
    {
      if rules != [] {
        var front, last := rules[..|rules| - 1], rules[|rules| - 1];
        assert rules == front + [last];
        WriteThenIssues(front);
        LoadSnoc(front, last);
      }
    }

    /** Writing rules and loading them gives the rules that compile, with issues unless all do. */
    lemma WriteThenLoad(rules: seq<Rule>)
      ensures AllCompile(rules) ==> FileRules(Written(rules)) == rules
      ensures FileIssues(Written(rules)) == [] <==> AllCompile(rules)
      ensures CompileAll(FileRules(Written(rules))) == CompileAll(rules)
    {
      WriteThenCompile(rules);
      WriteThenIssues(rules);
    }

    // ---------------------------------------------------------------- what is bound

    function RuleCandidates(rules: seq<Rule>): seq<Option<Resolved>> {
      seq(|rules|, i requires 0 <= i < |rules| => compile(rules[i]))
    }

    /** What each entry of a file may bind: nothing when it is no rule or does not compile. */
    function FileCandidates(f: File): seq<Option<Resolved>> {
      if !f.Entries? then []
      else
        seq(|f.entries|, i requires 0 <= i < |f.entries| =>
          if f.entries[i].Some? then compile(f.entries[i].value) else None)
    }

    /**
     * The bindings are exactly those of the candidates from `cut` on whose command is not one
     * of the given ones, in their order; `at` lists where they stand.
     */
    ghost predicate Selects(
      bindings: seq<Resolved>, candidates: seq<Option<Resolved>>, commands: set<string>, at: seq<nat>, cut: nat)
    {
      && |at| == |bindings| && cut <= |candidates|
      && (forall i :: 0 <= i < |at| ==>
            cut <= at[i] < |candidates| && candidates[at[i]] == Some(bindings[i]) && bindings[i].command !in commands)
      && (forall i, j :: 0 <= i < j < |at| ==> at[i] < at[j])
      && (forall p: nat :: cut <= p < |candidates| && candidates[p].Some? && candidates[p].value.command !in commands
            ==> p in at)
    }

    function Somes(candidates: seq<Option<Resolved>>): seq<Resolved> {
      if candidates == [] then []
      else
        var c := candidates[|candidates| - 1];
        Somes(candidates[..|candidates| - 1]) + if c.Some? then [c.value] else []
    }

    lemma {:induction false} CompiledIsSomes(rules: seq<Rule>)
      ensures Compiled(rules) == Somes(RuleCandidates(rules))
    {
      if rules != [] {
        CompiledIsSomes(rules[..|rules| - 1]);
        assert RuleCandidates(rules)[..|rules| - 1] == RuleCandidates(rules[..|rules| - 1]);
      }
    }

    lemma {:induction false} LoadedIsSomes(entries: seq<Option<Rule>>)
      ensures Compiled(RulesOf(entries)) == Somes(FileCandidates(Entries(entries)))
    {
      if entries != [] {
        var front, e := entries[..|entries| - 1], entries[|entries| - 1];
        LoadedIsSomes(front);
        assert FileCandidates(Entries(entries))[..|front|] == FileCandidates(Entries(front));
        if Usable(e) {
          CompiledSnoc(RulesOf(front), e.value);
        } else {
          assert RulesOf(entries) == RulesOf(front);
        }
      }
    }

    lemma {:induction false} SomesSelect(candidates: seq<Option<Resolved>>) returns (at: seq<nat>)
      ensures Selects(Somes(candidates), candidates, {}, at, 0)
    {
      if candidates == [] {
        at := [];
      } else {
        var front := candidates[..|candidates| - 1];
        at := SomesSelect(front);
        SomesSelectSnoc(front, candidates[|candidates| - 1], at);
        at := at + if candidates[|candidates| - 1].Some? then [|front|] else [];
        assert candidates == front + [candidates[|candidates| - 1]];
      }
    }

    lemma SomesSelectSnoc(front: seq<Option<Resolved>>, c: Option<Resolved>, at: seq<nat>)
      requires Selects(Somes(front), front, {}, at, 0)
      ensures Selects(Somes(front + [c]), front + [c], {}, at + if c.Some? then [|front|] else [], 0)
    {
      assert (front + [c])[..|front|] == front;
    }

    /** Keeping only the last bindings moves the cut behind those left out. */
    lemma SelectLast(
      bindings: seq<Resolved>, candidates: seq<Option<Resolved>>, commands: set<string>, at: seq<nat>, cut: nat, k: nat)
      returns (at': seq<nat>, cut': nat)
      requires Selects(bindings, candidates, commands, at, cut) && k <= |bindings|
      ensures Selects(bindings[k..], candidates, commands, at', cut') && (k == 0 ==> cut' == cut)
    {
      at' := at[k..];
      cut' := if k == 0 then cut else at[k - 1] + 1;
      forall p: nat |
        cut' <= p < |candidates| && candidates[p].Some? && candidates[p].value.command !in commands
        ensures p in at'
      {
        var i :| 0 <= i < |at| && at[i] == p;
        assert at'[i - k] == p;
      }
    }

    lemma SelectUpTo(bindings: seq<Resolved>, candidates: seq<Option<Resolved>>, at: seq<nat>, cut: nat)
      requires Selects(bindings, candidates, {}, at, cut) && bindings != []
      ensures var last := |bindings| - 1;
              && at[last] < |candidates|
              && Selects(bindings[..last], candidates[..at[last]], {}, at[..last], cut)
    {
      var last := |bindings| - 1;
      forall p: nat | cut <= p < at[last] && candidates[p].Some? ensures p in at[..last] {
        var i :| 0 <= i < |at| && at[i] == p;
        assert at[..last][i] == p;
      }
    }

    /** Leaving out the bindings of some commands selects the others. */
    lemma {:induction false} SelectWithout(
      bindings: seq<Resolved>, candidates: seq<Option<Resolved>>, commands: set<string>, at: seq<nat>, cut: nat)
      returns (at': seq<nat>)
      requires Selects(bindings, candidates, {}, at, cut)
      ensures Selects(WithoutCommands(bindings, commands), candidates, commands, at', cut)
      decreases |bindings|
    {
      if bindings == [] {
        at' := [];
      } else {
        var last := |bindings| - 1;
        SelectUpTo(bindings, candidates, at, cut);
        var front := SelectWithout(bindings[..last], candidates[..at[last]], commands, at[..last], cut);
        at' := front + if bindings[last].command in commands then [] else [at[last]];
        SelectSnoc(bindings, candidates, commands, at, cut, front, at');
      }
    }

    lemma SelectSnoc(
      bindings: seq<Resolved>, candidates: seq<Option<Resolved>>, commands: set<string>, at: seq<nat>, cut: nat,
      front: seq<nat>, at': seq<nat>)
      requires Selects(bindings, candidates, {}, at, cut) && bindings != []
      requires var last := |bindings| - 1;
               && at[last] < |candidates|
               && Selects(WithoutCommands(bindings[..last], commands), candidates[..at[last]], commands, front, cut)
               && at' == front + if bindings[last].command in commands then [] else [at[last]]
      ensures Selects(WithoutCommands(bindings, commands), candidates, commands, at', cut)
    {
      var last := |bindings| - 1;
      forall p: nat |
        cut <= p < |candidates| && candidates[p].Some? && candidates[p].value.command !in commands
        ensures p in at'
      {
        var i :| 0 <= i < |at| && at[i] == p;
        assert p <= at[last];
        if p < at[last] {
          assert candidates[..at[last]][p] == candidates[p];
          assert p in front;
        }
      }
    }

    /** Some candidate binds this command. */
    predicate Binds(candidates: seq<Option<Resolved>>, command: string) {
      exists i :: 0 <= i < |candidates| && candidates[i].Some? && candidates[i].value.command == command
    }

    lemma CommandsAreBound(candidates: seq<Option<Resolved>>, command: string)
      ensures command in BoundCommands(Somes(candidates)) <==> Binds(candidates, command)
    {
      var at := SomesSelect(candidates);
      if Binds(candidates, command) {
        var p :| 0 <= p < |candidates| && candidates[p].Some? && candidates[p].value.command == command;
        var i :| 0 <= i < |at| && at[i] == p;
        assert Somes(candidates)[i].command == command;
      }
    }

    /**
     * What is bound: first the defaults whose command no rule binds, then the rules, both in
     * their order; where the maximum is reached the first ones are cut off.
     */
    ghost predicate BindsExactly(bindings: seq<Resolved>, defaults: seq<Rule>, candidates: seq<Option<Resolved>>,
                                 n: nat, at: seq<nat>, cut: nat, ruleAt: seq<nat>, ruleCut: nat, commands: set<string>)
    {
      && n <= |bindings| <= MAX_RULES
      && (forall c :: c in commands <==> Binds(candidates, c))
      && Selects(bindings[..n], RuleCandidates(defaults), commands, at, cut)
      && Selects(bindings[n..], candidates, {}, ruleAt, ruleCut)
      && (cut > 0 ==> |bindings| == MAX_RULES || |defaults| > MAX_RULES)
      && (ruleCut > 0 ==> |bindings| - n == MAX_RULES)
    }

    lemma SomesLength(candidates: seq<Option<Resolved>>)
      ensures |Somes(candidates)| <= |candidates|
    {
      if candidates != [] {
        SomesLength(candidates[..|candidates| - 1]);
      }
    }

    /** The defaults alone, cut to the maximum. */
    lemma DefaultsSelected(defaults: seq<Rule>) returns (at: seq<nat>, cut: nat)
      ensures Selects(CompileAll(defaults), RuleCandidates(defaults), {}, at, cut)
      ensures cut > 0 ==> |defaults| > MAX_RULES
    {
      CompiledIsSomes(defaults);
      SomesLength(RuleCandidates(defaults));
      var all := SomesSelect(RuleCandidates(defaults));
      var compiled := Compiled(defaults);
      var k := if |compiled| > MAX_RULES then |compiled| - MAX_RULES else 0;
      at, cut := SelectLast(compiled, RuleCandidates(defaults), {}, all, 0, k);
      assert compiled[k..] == CompileAll(defaults);
    }

    lemma MergeIs(defaults: seq<Rule>, custom: seq<Resolved>)
      requires |custom| <= MAX_RULES
      ensures var kept := WithoutCommands(CompileAll(defaults), BoundCommands(custom));
              var k := if |kept| + |custom| > MAX_RULES then |kept| + |custom| - MAX_RULES else 0;
              && k <= |kept|
              && MergeWithDefaults(defaults, custom) == kept[k..] + custom
    {
      var all := CompileAll(defaults);
      if custom == [] {
        NoneWithout(all);
        assert BoundCommands(custom) == {};
        assert all[0..] + custom == all;
      } else {
        var kept := WithoutCommands(all, BoundCommands(custom));
        if |kept| + |custom| > MAX_RULES {
          var k := |kept| + |custom| - MAX_RULES;
          assert (kept + custom)[k..] == kept[k..] + custom;
        } else {
          assert kept[0..] == kept;
        }
      }
    }

    lemma {:induction false} NoneWithout(bindings: seq<Resolved>)
      ensures WithoutCommands(bindings, {}) == bindings
    {
      if bindings != [] {
        NoneWithout(bindings[..|bindings| - 1]);
      }
    }

    lemma {:induction false} MergedExactly(defaults: seq<Rule>, candidates: seq<Option<Resolved>>)
      returns (n: nat, at: seq<nat>, cut: nat, ruleAt: seq<nat>, ruleCut: nat, commands: set<string>)
      ensures BindsExactly(MergeWithDefaults(defaults, Last(Somes(candidates), MAX_RULES)), defaults, candidates,
                           n, at, cut, ruleAt, ruleCut, commands)
    {
      var compiled := Somes(candidates);
      var custom := Last(compiled, MAX_RULES);
      var j := if |compiled| > MAX_RULES then |compiled| - MAX_RULES else 0;
      var all := SomesSelect(candidates);
      ruleAt, ruleCut := SelectLast(compiled, candidates, {}, all, 0, j);
      assert compiled[j..] == custom;
      commands := BoundCommands(compiled);
      forall c ensures c in commands <==> Binds(candidates, c) {
        CommandsAreBound(candidates, c);
      }
      MergeIs(defaults, custom);
      var bindings := MergeWithDefaults(defaults, custom);
      if |custom| == MAX_RULES {
        n, at, cut := 0, [], |defaults|;
        assert bindings[0..] == bindings == custom;
      } else {
        assert j == 0 && custom == compiled;
        n, at, cut := DefaultsMerged(defaults, custom);
      }
    }

    lemma DefaultsMerged(defaults: seq<Rule>, custom: seq<Resolved>) returns (n: nat, at: seq<nat>, cut: nat)
      requires |custom| < MAX_RULES
      ensures var bindings := MergeWithDefaults(defaults, custom);
              && n <= |bindings| <= MAX_RULES && bindings[n..] == custom
              && Selects(bindings[..n], RuleCandidates(defaults), BoundCommands(custom), at, cut)
              && (cut > 0 ==> |bindings| == MAX_RULES || |defaults| > MAX_RULES)
    {
      var at0, cut0 := DefaultsSelected(defaults);
      var at1 := SelectWithout(CompileAll(defaults), RuleCandidates(defaults), BoundCommands(custom), at0, cut0);
      MergeIs(defaults, custom);
      var kept := WithoutCommands(CompileAll(defaults), BoundCommands(custom));
      var k := if |kept| + |custom| > MAX_RULES then |kept| + |custom| - MAX_RULES else 0;
      at, cut := SelectLast(kept, RuleCandidates(defaults), BoundCommands(custom), at1, cut0, k);
      n := |kept| - k;
      var bindings := MergeWithDefaults(defaults, custom);
      assert bindings[..n] == kept[k..] && bindings[n..] == custom;
    }

    /** What loading any file binds. */
    lemma LoadBindsExactly(defaults: seq<Rule>, f: File)
      returns (n: nat, at: seq<nat>, cut: nat, ruleAt: seq<nat>, ruleCut: nat, commands: set<string>)
      ensures BindsExactly(LoadState(defaults, f).bindings, defaults, FileCandidates(f),
                           n, at, cut, ruleAt, ruleCut, commands)
    {
      if f.Entries? {
        LoadedIsSomes(f.entries);
      }
      n, at, cut, ruleAt, ruleCut, commands := MergedExactly(defaults, FileCandidates(f));
    }

    /** What is bound after the rules have been changed. */
    lemma CacheBindsExactly(defaults: seq<Rule>, rules: seq<Rule>)
      returns (n: nat, at: seq<nat>, cut: nat, ruleAt: seq<nat>, ruleCut: nat, commands: set<string>)
      ensures BindsExactly(CachedAfter(defaults, rules).bindings, defaults, RuleCandidates(rules),
                           n, at, cut, ruleAt, ruleCut, commands)
    {
      CompiledIsSomes(rules);
      n, at, cut, ruleAt, ruleCut, commands := MergedExactly(defaults, RuleCandidates(rules));
    }

    /** An upserted rule that compiles is bound last, where it has precedence over all others. */
    lemma UpsertedIsBoundLast(defaults: seq<Rule>, rules: seq<Rule>, rule: Rule, replace: Option<Rule>)
      requires compile(rule).Some?
      ensures var bindings := CachedAfter(defaults, Upserted(rules, rule, replace)).bindings;
              bindings != [] && bindings[|bindings| - 1] == compile(rule).value
    {
      var after := Upserted(rules, rule, replace);
      UpsertKeepsOneCopy(rules, rule, replace);
      var n, at, cut, ruleAt, ruleCut, commands := CacheBindsExactly(defaults, after);
      var p := |after| - 1;
      assert RuleCandidates(after)[p] == compile(rule);
      assert ruleCut <= p;
      var i :| 0 <= i < |ruleAt| && ruleAt[i] == p;
      assert ruleAt[|ruleAt| - 1] <= p;
    }

    // ---------------------------------------------------------------- the startup backfill

    predicate HasCommand(rules: seq<Rule>, command: string) {
      exists i :: 0 <= i < |rules| && rules[i].command == command
    }

    predicate Taken(rules: seq<Rule>, d: Rule) {
      exists i :: 0 <= i < |rules| && conflicts(rules[i], d)
    }

    /** The defaults whose command has no rule and whose shortcut no rule uses. */
    function MissingDefaults(defaults: seq<Rule>, rules: seq<Rule>): seq<Rule> {
      if defaults == [] then []
      else
        var d := defaults[|defaults| - 1];
        MissingDefaults(defaults[..|defaults| - 1], rules)
        + if HasCommand(rules, d.command) || Taken(rules, d) then [] else [d]
    }

    function Slots(rules: seq<Rule>): nat {
      if |rules| < MAX_RULES then MAX_RULES - |rules| else 0
    }

    function Appended(defaults: seq<Rule>, rules: seq<Rule>): seq<Rule> {
      var missing := MissingDefaults(defaults, rules);
      if |missing| > Slots(rules) then missing[..Slots(rules)] else missing
    }

    function Synced(defaults: seq<Rule>, f: File): File {
      if f.Missing? then Written(defaults)
      else if FileIssues(f) != [] then f
      else
        var rules := FileRules(f);
        if Appended(defaults, rules) == [] then f else Written(rules + Appended(defaults, rules))
    }

    lemma {:induction false} MissingMembers(defaults: seq<Rule>, rules: seq<Rule>, d: Rule)
      ensures d in MissingDefaults(defaults, rules)
              <==> d in defaults && !HasCommand(rules, d.command) && !Taken(rules, d)
    {
      if defaults != [] {
        var front, last := defaults[..|defaults| - 1], defaults[|defaults| - 1];
        assert defaults == front + [last];
        MissingMembers(front, rules, d);
      }
    }

    lemma {:induction false} NothingMissing(defaults: seq<Rule>, rules: seq<Rule>)
      requires forall d :: d in defaults ==> HasCommand(rules, d.command) || Taken(rules, d)
      ensures MissingDefaults(defaults, rules) == []
    {
      if MissingDefaults(defaults, rules) != [] {
        MissingMembers(defaults, rules, MissingDefaults(defaults, rules)[0]);
      }
    }

    lemma {:induction false} IssueFreeEntries(entries: seq<Option<Rule>>)
      requires IssuesOf(entries) == []
      ensures AllCompile(RulesOf(entries)) && Written(RulesOf(entries)).entries == entries
    {
      if entries != [] {
        var front, last := entries[..|entries| - 1], entries[|entries| - 1];
        IssueFreeEntries(front);
        assert RulesOf(entries) == RulesOf(front) + [last.value];
        assert Written(RulesOf(entries)).entries == Written(RulesOf(front)).entries + [last];
      }
    }

    lemma AppendedMembers(defaults: seq<Rule>, rules: seq<Rule>)
      ensures forall d :: d in Appended(defaults, rules) ==> d in defaults
      ensures AllCompile(defaults) && AllCompile(rules) ==> AllCompile(rules + Appended(defaults, rules))
    {
      forall d | d in Appended(defaults, rules) ensures d in defaults {
        MissingMembers(defaults, rules, d);
      }
      var more := Appended(defaults, rules);
      if AllCompile(defaults) {
        forall i | 0 <= i < |more| ensures compile(more[i]).Some? {
          assert more[i] in defaults;
        }
      }
    }

    /**
     * The backfill keeps the user's rules as a prefix and never pushes them past the maximum:
     * it only appends defaults, and only into free slots. A file with issues is left alone.
     */
    lemma {:induction false} SyncKeepsUserRules(defaults: seq<Rule>, f: File)
      requires AllCompile(defaults) && f.Entries?
      ensures Synced(defaults, f).Entries? && f.entries <= Synced(defaults, f).entries
      ensures FileIssues(Synced(defaults, f)) == FileIssues(f)
      ensures |Synced(defaults, f).entries| <= |f.entries| || |Synced(defaults, f).entries| <= MAX_RULES
      ensures forall i :: |f.entries| <= i < |Synced(defaults, f).entries| ==>
                Synced(defaults, f).entries[i].Some? && Synced(defaults, f).entries[i].value in defaults
    {
      var rules := FileRules(f);
      if FileIssues(f) == [] && Appended(defaults, rules) != [] {
        IssueFreeEntries(f.entries);
        AppendedFits(defaults, rules);
        AppendedFileKeeps(f.entries, rules, Appended(defaults, rules));
        AppendedMembers(defaults, rules);
        WriteThenIssues(rules + Appended(defaults, rules));
      }
    }

    lemma AppendedFits(defaults: seq<Rule>, rules: seq<Rule>)
      ensures Appended(defaults, rules) == [] || |rules + Appended(defaults, rules)| <= MAX_RULES
    {
    }

    lemma AppendedFileKeeps(entries: seq<Option<Rule>>, rules: seq<Rule>, more: seq<Rule>)
      requires Written(rules).entries == entries
      ensures entries <= Written(rules + more).entries && |Written(rules + more).entries| == |rules + more|
      ensures forall i :: |entries| <= i < |rules + more| ==>
                Written(rules + more).entries[i].Some? && Written(rules + more).entries[i].value in more
    {
      WrittenConcat(rules, more);
    }

    lemma WrittenConcat(a: seq<Rule>, b: seq<Rule>)
      ensures Written(a).entries <= Written(a + b).entries
      ensures forall i :: |a| <= i < |a + b| ==> Written(a + b).entries[i] == Some(b[i - |a|])
    {
      assert Written(a + b).entries[..|a|] == Written(a).entries;
    }

    /** After the backfill every default is bound, is kept out by a conflict, or found no free slot. */
    lemma SyncIsComplete(defaults: seq<Rule>, rules: seq<Rule>, d: Rule)
      requires AllCompile(rules) && d in defaults
      ensures var after := rules + Appended(defaults, rules);
              HasCommand(after, d.command) || Taken(rules, d) || |after| >= MAX_RULES
    {
      var after := rules + Appended(defaults, rules);
      MissingMembers(defaults, rules, d);
      if HasCommand(rules, d.command) {
        var i :| 0 <= i < |rules| && rules[i].command == d.command;
        assert after[i].command == d.command;
      } else if !Taken(rules, d) && |after| < MAX_RULES {
        var i :| 0 <= i < |MissingDefaults(defaults, rules)| && MissingDefaults(defaults, rules)[i] == d;
        assert after[|rules| + i] == d;
      }
    }

    lemma SecondSyncAppendsNothing(defaults: seq<Rule>, rules: seq<Rule>)
      requires AllCompile(rules)
      ensures Appended(defaults, rules + Appended(defaults, rules)) == []
    {
      var after := rules + Appended(defaults, rules);
      if |after| < MAX_RULES {
        forall d | d in defaults ensures HasCommand(after, d.command) || Taken(after, d) {
          SyncIsComplete(defaults, rules, d);
          if Taken(rules, d) {
            var i :| 0 <= i < |rules| && conflicts(rules[i], d);
            assert conflicts(after[i], d);
          }
        }
        NothingMissing(defaults, after);
      }
    }

    /** Running the backfill twice changes nothing more, whatever the file held. */
    lemma SyncIsIdempotent(defaults: seq<Rule>, f: File)
      requires AllCompile(defaults)
      ensures Synced(defaults, Synced(defaults, f)) == Synced(defaults, f)
    {
      var rules := FileRules(f);
      if f.Missing? {
        WriteThenLoad(defaults);
        forall d | d in defaults ensures HasCommand(defaults, d.command) {
          var i :| 0 <= i < |defaults| && defaults[i] == d;
          assert defaults[i].command == d.command;
        }
        NothingMissing(defaults, defaults);
      } else if FileIssues(f) == [] && Appended(defaults, rules) != [] {
        IssueFreeEntries(f.entries);
        AppendedMembers(defaults, rules);
        WriteThenLoad(rules + Appended(defaults, rules));
        SecondSyncAppendsNothing(defaults, rules);
      }
    }

    /** A backfill that appends something does change the file. */
    lemma AppendingChanges(defaults: seq<Rule>, f: File)
      requires f.Entries? && FileIssues(f) == [] && Appended(defaults, FileRules(f)) != []
      ensures Synced(defaults, f) != f
    {
      IssueFreeEntries(f.entries);
      assert |Synced(defaults, f).entries| > |f.entries|;
    }

    // ---------------------------------------------------------------- upsert and removal

    function Without(rules: seq<Rule>, drop: set<Rule>): seq<Rule> {
      if rules == [] then []
      else
        var r := rules[|rules| - 1];
        Without(rules[..|rules| - 1], drop) + if r in drop then [] else [r]
    }

    function Dropped(rule: Rule, replace: Option<Rule>): set<Rule> {
      if replace.Some? then {replace.value, rule} else {rule}
    }

    function Upserted(rules: seq<Rule>, rule: Rule, replace: Option<Rule>): seq<Rule> {
      Last(Without(rules, Dropped(rule, replace)) + [rule], MAX_RULES)
    }

    lemma {:induction false} WithoutMembers(rules: seq<Rule>, drop: set<Rule>)
      ensures forall r :: r in Without(rules, drop) <==> r in rules && r !in drop
      ensures |Without(rules, drop)| <= |rules|
    {
      if rules != [] {
        WithoutMembers(rules[..|rules| - 1], drop);
        assert rules == rules[..|rules| - 1] + [rules[|rules| - 1]];
      }
    }

    /**
     * Upsert leaves exactly one copy of the rule, at the end, within the maximum; before it
     * stand the newest of the other rules, without the replaced one, in their old order and
     * number, and none but the oldest of a full list are lost.
     */
    lemma UpsertKeepsOneCopy(rules: seq<Rule>, rule: Rule, replace: Option<Rule>)
      ensures var after := Upserted(rules, rule, replace);
              var last := |after| - 1;
              var kept := Without(rules, Dropped(rule, replace));
              && 1 <= |after| <= MAX_RULES
              && after[last] == rule
              && last == (if |kept| < MAX_RULES then |kept| else MAX_RULES - 1)
              && after[..last] == kept[|kept| - last..]
              && (forall i :: 0 <= i < last ==>
                    after[i] != rule && Some(after[i]) != replace && after[i] in rules)
              && (|rules| < MAX_RULES ==>
                    forall r :: r in rules && Some(r) != replace ==> r in after)
    {
      WithoutMembers(rules, Dropped(rule, replace));
      LastButOne(Without(rules, Dropped(rule, replace)), rule);
    }

    lemma LastButOne(kept: seq<Rule>, rule: Rule)
      ensures var last := if |kept| < MAX_RULES then |kept| else MAX_RULES - 1;
              var after := Last(kept + [rule], MAX_RULES);
              && |after| == last + 1 && after[last] == rule
              && after[..last] == kept[|kept| - last..]
              && (forall i :: 0 <= i < last ==> after[i] in kept)
              && (|kept| < MAX_RULES ==> after == kept + [rule])
    {
      var after := Last(kept + [rule], MAX_RULES);
      var skipped := |kept| + 1 - |after|;
      forall i | 0 <= i < |after| - 1 ensures after[i] == kept[skipped + i] {
      }
    }

    /** Dropping rules works rule by rule, so it keeps order and number of the others. */
    lemma {:induction false} WithoutIsFilter(a: seq<Rule>, b: seq<Rule>, drop: set<Rule>)
      ensures Without(a + b, drop) == Without(a, drop) + Without(b, drop)
    {
      if b == [] {
        assert a + b == a;
      } else {
        assert (a + b)[..|a + b| - 1] == a + b[..|b| - 1];
        WithoutIsFilter(a, b[..|b| - 1], drop);
      }
    }

    lemma {:induction false} WithoutCompiles(rules: seq<Rule>, drop: set<Rule>)
      requires AllCompile(rules)
      ensures AllCompile(Without(rules, drop))
    {
      WithoutMembers(rules, drop);
      forall i | 0 <= i < |Without(rules, drop)| ensures compile(Without(rules, drop)[i]).Some? {
        assert Without(rules, drop)[i] in rules;
      }
    }

    lemma {:induction false} LoadedRulesCompile(entries: seq<Option<Rule>>)
      ensures AllCompile(RulesOf(entries))
    {
      if entries != [] {
        LoadedRulesCompile(entries[..|entries| - 1]);
      }
    }

    /** The state cached after an upsert: bindings of the capped rules, and no issues. */
    function CachedAfter(defaults: seq<Rule>, rules: seq<Rule>): State {
      State(MergeWithDefaults(defaults, CompileAll(rules)), [])
    }

    /**
     * The cached bindings always equal what reloading the written file gives; the cached state
     * as a whole does exactly when the upserted rule compiles, for otherwise a reload reports it.
     */
    lemma UpsertCacheAgreesWithFile(defaults: seq<Rule>, f: File, rule: Rule, replace: Option<Rule>)
      ensures var after := Upserted(FileRules(f), rule, replace);
              && CachedAfter(defaults, after).bindings == LoadState(defaults, Written(after)).bindings
              && (CachedAfter(defaults, after) == LoadState(defaults, Written(after)) <==> compile(rule).Some?)
    {
      if f.Entries? {
        LoadedRulesCompile(f.entries);
      }
      UpsertedCompiles(FileRules(f), rule, replace);
      CacheAgrees(defaults, Upserted(FileRules(f), rule, replace));
    }

    lemma CacheAgrees(defaults: seq<Rule>, rules: seq<Rule>)
      ensures CachedAfter(defaults, rules).bindings == LoadState(defaults, Written(rules)).bindings
      ensures CachedAfter(defaults, rules) == LoadState(defaults, Written(rules)) <==> AllCompile(rules)
    {
      WriteThenLoad(rules);
    }

    lemma UpsertedCompiles(rules: seq<Rule>, rule: Rule, replace: Option<Rule>)
      requires AllCompile(rules)
      ensures AllCompile(Upserted(rules, rule, replace)) <==> compile(rule).Some?
    {
      var after := Upserted(rules, rule, replace);
      UpsertKeepsOneCopy(rules, rule, replace);
      assert after[|after| - 1] == rule;
      forall i | 0 <= i < |after| - 1 ensures compile(after[i]).Some? {
        assert after[i] in rules;
      }
    }

    /** Removal drops every copy of the rule and nothing else, and its cache agrees with the file. */
    lemma RemoveIsExact(defaults: seq<Rule>, f: File, rule: Rule)
      ensures var after := Without(FileRules(f), {rule});
              && (forall r :: r in after <==> r in FileRules(f) && r != rule)
              && CachedAfter(defaults, after) == LoadState(defaults, Written(after))
    {
      var rules := FileRules(f);
      if f.Entries? {
        LoadedRulesCompile(f.entries);
      }
      WithoutMembers(rules, {rule});
      WithoutCompiles(rules, {rule});
      CacheAgrees(defaults, Without(rules, {rule}));
    }
  }

  const REAL := Codec(Compile, Compete)

  /** A rule whose key text names two keys does not compile. */
  lemma TwoKeysDoNotCompile(command: string, when_: Option<string>)
    ensures Compile(Rule("a+b", command, when_)).None?
  {
    KeyShortcuts.LowerLetter("a");
    KeyShortcuts.LowerLetter("b");
    KeyShortcuts.TwoKeysRefused("a", "b");
    assert "a" + "+" + "b" == "a+b";
  }

  /** Upserting such a rule caches a state that hides the issue reloading reports. */
  lemma {:induction false} RefusedRuleIsHidden(defaults: seq<Rule>, f: File, command: string)
    ensures var after := REAL.Upserted(REAL.FileRules(f), Rule("a+b", command, None), None);
            && REAL.CachedAfter(defaults, after) != REAL.LoadState(defaults, REAL.Written(after))
            && REAL.CachedAfter(defaults, after).issues == []
            && REAL.LoadState(defaults, REAL.Written(after)).issues != []
  {
    TwoKeysDoNotCompile(command, None);
    REAL.UpsertCacheAgreesWithFile(defaults, f, Rule("a+b", command, None), None);
  }

  // ---------------------------------------------------------------- the store

  datatype Reply = Bindings(bindings: seq<Resolved>) | WriteFailed | NotAnArray

  class Store {
    const codec: Codec
    const defaults: seq<Rule>
    var file: File
    var cache: Option<State>

    constructor (defaults: seq<Rule>, file: File)
      ensures codec == REAL
      ensures this.defaults == defaults && this.file == file && cache.None?
    {
      codec := REAL;
      this.defaults := defaults;
      this.file := file;
      cache := None;
    }

    method FindMissing(customConfig: seq<Rule>) returns (missing: seq<Rule>)
      ensures missing == codec.MissingDefaults(defaults, customConfig)
    {
      missing := [];
      for i := 0 to |defaults|
        invariant missing == codec.MissingDefaults(defaults[..i], customConfig)
      {
        var d := defaults[i];
        assert defaults[..i + 1][..i] == defaults[..i];
        if codec.HasCommand(customConfig, d.command) {
          continue;
        }
        if codec.Taken(customConfig, d) {
          continue;
        }
        missing := missing + [d];
      }
      assert defaults[..|defaults|] == defaults;
    }

    /** Adds the missing defaults at startup; `writes` is the outcome of a file write, if one is made. */
    method SyncDefaults(writes: bool) returns (ok: bool)
      modifies this
      ensures ok <==> writes || codec.Synced(defaults, old(file)) == old(file)
      ensures file == if ok then codec.Synced(defaults, old(file)) else old(file)
      ensures cache == if ok then None else old(cache)
    {
      if file.Missing? {
        if !writes {
          return false;
        }
        file := codec.Written(defaults);
        cache := None;
        return true;
      }
      if codec.FileIssues(file) != [] {
        cache := None;
        return true;
      }
      var customConfig := codec.FileRules(file);
      var missing := FindMissing(customConfig);
      var slots := codec.Slots(customConfig);
      var toAppend := if |missing| > slots then missing[..slots] else missing;
      assert toAppend == codec.Appended(defaults, customConfig);
      if toAppend == [] {
        cache := None;
        return true;
      }
      if !writes {
        codec.AppendingChanges(defaults, file);
        return false;
      }
      file := codec.Written(customConfig + toAppend);
      cache := None;
      return true;
    }

    method FilterRules(customConfig: seq<Rule>, rule: Rule, replace: Option<Rule>) returns (kept: seq<Rule>)
      ensures kept == codec.Without(customConfig, codec.Dropped(rule, replace))
    {
      kept := [];
      for i := 0 to |customConfig|
        invariant kept == codec.Without(customConfig[..i], codec.Dropped(rule, replace))
      {
        var entry := customConfig[i];
        assert customConfig[..i + 1][..i] == customConfig[..i];
        if entry != rule && Some(entry) != replace {
          kept := kept + [entry];
        }
      }
      assert customConfig[..|customConfig|] == customConfig;
    }

    method Upsert(rule: Rule, replace: Option<Rule>, writes: bool) returns (reply: Reply)
      modifies this
      ensures old(file).Malformed? ==> reply.NotAnArray? && file == old(file) && cache == old(cache)
      ensures !old(file).Malformed? && !writes ==> reply.WriteFailed? && file == old(file) && cache == old(cache)
      ensures var after := codec.Upserted(codec.FileRules(old(file)), rule, replace);
              !old(file).Malformed? && writes ==>
                file == codec.Written(after) && cache == Some(codec.CachedAfter(defaults, after))
                && reply == Bindings(codec.CachedAfter(defaults, after).bindings)
    {
      if file.Malformed? {
        return NotAnArray;
      }
      var customConfig := codec.FileRules(file);
      var nextConfig := FilterRules(customConfig, rule, replace);
      nextConfig := nextConfig + [rule];
      var capped := if |nextConfig| > MAX_RULES then nextConfig[|nextConfig| - MAX_RULES..] else nextConfig;
      assert capped == codec.Upserted(customConfig, rule, replace);
      if !writes {
        return WriteFailed;
      }
      file := codec.Written(capped);
      var next := codec.MergeWithDefaults(defaults, codec.CompileAll(capped));
      cache := Some(State(next, []));
      return Bindings(next);
    }

    /** Removal does not shorten an over-long list, so its write may be refused by the schema. */
    method Remove(rule: Rule, writes: bool) returns (reply: Reply)
      modifies this
      ensures old(file).Malformed? ==> reply.NotAnArray? && file == old(file) && cache == old(cache)
      ensures var after := codec.Without(codec.FileRules(old(file)), {rule});
              !old(file).Malformed? ==>
                if writes && |after| <= MAX_RULES
                then file == codec.Written(after) && cache == Some(codec.CachedAfter(defaults, after))
                     && reply == Bindings(codec.CachedAfter(defaults, after).bindings)
                else reply.WriteFailed? && file == old(file) && cache == old(cache)
    {
      if file.Malformed? {
        return NotAnArray;
      }
      var nextConfig := codec.Without(codec.FileRules(file), {rule});
      if !writes || |nextConfig| > MAX_RULES {
        return WriteFailed;
      }
      file := codec.Written(nextConfig);
      var next := codec.MergeWithDefaults(defaults, codec.CompileAll(nextConfig));
      cache := Some(State(next, []));
      return Bindings(next);
    }
  }
}
