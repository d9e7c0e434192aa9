/** The loop that rewrites a command (benchmarking/frameworks/framework_base.py), proved
    to compute the recursive expansion of its placeholders. */
module CommandRewriting {
  import opened Wrappers
  import opened CommandLookup
  import opened Json
  import opened TokenExpansion
  import opened Placeholders
  import opened CommandPasses

  /** The texts that names resolve to, other than the empty one: a pass replaces these. */
  ghost function TextsOf(env: Env): map<string, string> {
    map name | name in Names(env) && Resolve(env, name).Text? && Resolve(env, name).text != "" ::
      Resolve(env, name).text
  }

  /** The names whose resolution raises. */
  ghost function RaisingOf(env: Env): iset<string> {
    iset name | Resolve(env, name).Raised?
  }

  ghost predicate Resolves(env: Env, texts: map<string, string>, raising: iset<string>) {
    forall name {:trigger Resolve(env, name)} ::
      (name in texts <==> Resolve(env, name).Text? && Resolve(env, name).text != "") &&
      (name in texts ==> Resolve(env, name).text == texts[name]) &&
      (name in raising <==> Resolve(env, name).Raised?)
  }

  lemma EnvResolves(env: Env)
    ensures Resolves(env, TextsOf(env), RaisingOf(env))
    ensures forall name | name in TextsOf(env) :: name !in RaisingOf(env)
  {
    forall name | Resolve(env, name).Text? ensures name in Names(env) {
      ResolvedIsName(env, name);
    }
  }

  method FindReplacement(env: Env, name: string, ghost texts: map<string, string>, ghost raising: iset<string>)
    returns (replace: Found)
    requires Resolves(env, texts, raising)
    ensures replace.Raised? <==> name in raising
    ensures replace.Text? && replace.text != "" <==> name in texts
    ensures name in texts ==> replace == Text(texts[name])
    ensures FirstFound(env, name, replace)
  {
    replace := GetMatchedString(env, env.test, name, env.files);
    if replace.Missing? {
      replace := GetMatchedString(env, env.model, name, env.modelFiles);
    }
    if replace.Missing? {
      replace := GetMatchedString(env, env.programs, name, map[]);
    }
    assert replace == Resolve(env, name);
  }

  /** What the test gives wins, an empty text and an exception included; if it gives nothing, what
      the model gives; and only then what the programs give. */
  predicate FirstFound(env: Env, name: string, found: Found) {
    var inTest, inModel := Lookup(env, env.test, name, env.files), Lookup(env, env.model, name, env.modelFiles);
    (!inTest.Missing? ==> found == inTest) &&
    (inTest.Missing? && !inModel.Missing? ==> found == inModel) &&
    (inTest.Missing? && inModel.Missing? ==> found == Lookup(env, env.programs, name, map[]))
  }

  /** For keys: that of the test wins over that of the model, and that over the programs'. */
  lemma KeysShadow(env: Env, name: string, found: Found)
    requires FirstFound(env, name, found) && env.test.Dict? && env.model.Dict? && env.programs.Dict?
    ensures name in env.test.fields ==> found == Text(Show(env, env.test.fields[name]))
    ensures '.' !in name && name !in env.test.fields && name in env.model.fields ==>
      found == Text(Show(env, env.model.fields[name]))
    ensures '.' !in name && name !in env.test.fields && name !in env.model.fields && name in env.programs.fields ==>
      found == Text(Show(env, env.programs.fields[name]))
    ensures '.' !in name && name !in env.test.fields && name !in env.model.fields && name !in env.programs.fields ==>
      found == Missing
  {
    hide Lookup;
    KeyDecides(env, env.test, name, env.files);
    KeyDecides(env, env.model, name, env.modelFiles);
    KeyDecides(env, env.programs, name, map[]);
  }

  lemma KeyDecides(env: Env, root: Json, name: string, files: map<string, Json>)
    requires root.Dict?
    ensures name in root.fields ==> Lookup(env, root, name, files) == Text(Show(env, root.fields[name]))
    ensures '.' !in name && name !in root.fields ==> Lookup(env, root, name, files) == Missing
  {
    if '.' !in name && name !in root.fields {
      assert Join([name]) == name && [name][..0] == [];
      PathStops(env, root, [name], files, 0);
    }
  }

  predicate Raises(raising: iset<string>, ts: seq<Token>) {
    exists t :: t in ts && t.Hole? && t.name in raising
  }

  /** Some match from index k on raises, or is replaced. */
  ghost predicate RaisesFrom(raising: iset<string>, ms: seq<Match>, k: nat) {
    exists j | k <= j < |ms| :: ms[j].content in raising
  }

  ghost predicate LiveFrom(texts: map<string, string>, ms: seq<Match>, k: nat) {
    exists j | k <= j < |ms| :: ms[j].content in texts
  }

  lemma FromStep(texts: map<string, string>, raising: iset<string>, ms: seq<Match>, k: nat)
    requires k < |ms|
    ensures RaisesFrom(raising, ms, k) <==> ms[k].content in raising || RaisesFrom(raising, ms, k + 1)
    ensures LiveFrom(texts, ms, k) <==> ms[k].content in texts || LiveFrom(texts, ms, k + 1)
  {
  }

  lemma RaisesAnywhere(raising: iset<string>, ms: seq<Match>, k: nat)
    requires RaisesFrom(raising, ms, k)
    ensures RaisesFrom(raising, ms, 0)
  {
  }

  lemma RaisesIffFound(raising: iset<string>, s: string)
    ensures Raises(raising, Parse(s)) <==> RaisesFrom(raising, FindIter(s, 0), 0)
  {
    var ms := FindIter(s, 0);
    if t :| t in Parse(s) && t.Hole? && t.name in raising {
      FindsTheHoles(s, 0, t.name);
    }
    if k :| 0 <= k < |ms| && ms[k].content in raising {
      FindsTheHoles(s, 0, ms[k].content);
      assert Hole(ms[k].content) in Parse(s);
    }
  }

  lemma HasLiveIffFound(texts: map<string, string>, defs: Definitions, s: string)
    requires Defines(texts, defs)
    ensures HasLive(defs, Parse(s)) <==> LiveFrom(texts, FindIter(s, 0), 0)
  {
    var ms := FindIter(s, 0);
    if t :| t in Parse(s) && Replaceable(defs, t) {
      FindsTheHoles(s, 0, t.name);
    }
    if k :| 0 <= k < |ms| && ms[k].content in texts {
      FindsTheHoles(s, 0, ms[k].content);
      assert Replaceable(defs, Hole(ms[k].content));
    }
  }

  /** The matches are spliced out from the last to the first, so that every recorded offset
      still points at its placeholder when its turn comes. */
  method SpliceOut(env: Env, command: string, results: seq<Match>,
                   ghost texts: map<string, string>, ghost raising: iset<string>, ghost defs: Definitions)
    returns (r: Result<string>, repeat: bool)
    requires Resolves(env, texts, raising) && Defines(texts, defs) && AllMatches(command, results)
    ensures r.Raised? <==> RaisesFrom(raising, results, 0)
    ensures r.Ok? ==> r.value == Pass(defs, command) && (repeat <==> LiveFrom(texts, results, 0))
  {
    hide ReplacedFrom;
    hide Splice;
    hide Pass;
    var rewritten := command;
    repeat := false;
    var k := |results|;
    ghost var p := PlaceBefore(results, k, 0);
    ReplacedEnds(defs, command, p);
    while k > 0
      invariant 0 <= k <= |results| && p == PlaceBefore(results, k, 0) <= |command|
      invariant rewritten == ReplacedFrom(defs, command, p)
      invariant !RaisesFrom(raising, results, k)
      invariant repeat <==> LiveFrom(texts, results, k)
    {
      k := k - 1;
      p := PlaceBefore(results, k, 0);
      var res := results[k];
      ReplaceStep(texts, defs, command, p, res);
      FromStep(texts, raising, results, k);
      var replace := FindReplacement(env, res.content, texts, raising);
      if replace.Raised? {
        RaisesAnywhere(raising, results, k);
        return Result.Raised, false;
      }
      if replace.Text? && replace.text != "" {
        rewritten := Splice(rewritten, res, replace.text);
        repeat := true;
      }
    }
    r := Ok(rewritten);
  }

  /** One pass over the command: the matches are all found before any is replaced. */
  method RewriteOnce(env: Env, command: string, ghost texts: map<string, string>, ghost raising: iset<string>,
                     ghost defs: Definitions)
    returns (r: Result<string>, repeat: bool)
    requires Resolves(env, texts, raising) && Defines(texts, defs)
    ensures r.Raised? <==> Raises(raising, Parse(command))
    ensures r.Ok? ==> r.value == Pass(defs, command)
    ensures r.Ok? ==> (repeat <==> HasLive(defs, Parse(command)))
  {
    FindIterIsAll(command);
    RaisesIffFound(raising, command);
    HasLiveIffFound(texts, defs, command);
    r, repeat := SpliceOut(env, command, FindIter(command, 0), texts, raising, defs);
  }

  /** The texts that names resolve to, read as tokens. */
  ghost function DefinitionsOf(env: Env): Definitions {
    Tokens(TextsOf(env))
  }

  lemma EnvDefines(env: Env)
    ensures Resolves(env, TextsOf(env), RaisingOf(env)) && Defines(TextsOf(env), DefinitionsOf(env))
  {
    EnvResolves(env);
    TokensDefine(TextsOf(env));
  }

  /** After k passes the loop ends: a placeholder raises, or none is replaced. */
  ghost predicate EndsAfter(env: Env, command: string, k: nat) {
    var ts := Parse(Passes(DefinitionsOf(env), command, k));
    Raises(RaisingOf(env), ts) || !HasLive(DefinitionsOf(env), ts)
  }

  /** The first time the loop can end. */
  ghost predicate FirstEnd(env: Env, command: string, k: nat) {
    EndsAfter(env, command, k) && forall j: nat | j < k :: !EndsAfter(env, command, j)
  }

  ghost function OutcomeAfter(env: Env, command: string, k: nat): Result<string> {
    var text := Passes(DefinitionsOf(env), command, k);
    if Raises(RaisingOf(env), Parse(text)) then Result.Raised else Ok(text)
  }

  /** A pass that replaces nothing changes nothing. */
  lemma NothingReplaced(defs: Definitions, command: string)
    requires !HasLive(defs, Parse(command))
    ensures Pass(defs, command) == command
  {
    NothingLive(defs, Parse(command), 1);
    RenderParse(command);
  }

  /** The loop, on every command and all definitions on which it ends. */
  method RewriteUntilDone(env: Env, command: string, ghost last: nat) returns (r: Result<string>)
    requires EndsAfter(env, command, last)
    ensures exists k :: FirstEnd(env, command, k) && r == OutcomeAfter(env, command, k)
  {
    hide Pass, Raises, HasLive, TextsOf, RaisingOf, DefinitionsOf, Resolves, Defines, Parse;
    ghost var texts, raising, defs := TextsOf(env), RaisingOf(env), DefinitionsOf(env);
    EnvDefines(env);
    ghost var passes := 0;
    r := Ok(command);
    var repeat := true;
    while repeat
      invariant r == Ok(Passes(defs, command, passes))
      invariant forall j: nat | j < passes :: !EndsAfter(env, command, j)
      invariant repeat ==> passes <= last
      invariant !repeat ==> EndsAfter(env, command, passes) && !Raises(raising, Parse(r.value))
      decreases last - passes, repeat
    {
      var next, again := RewriteOnce(env, r.value, texts, raising, defs);
      if next.Raised? {
        assert FirstEnd(env, command, passes);
        return Result.Raised;
      }
      if again {
        assert !EndsAfter(env, command, passes);
        passes := passes + 1;
      } else {
        NothingReplaced(defs, r.value);
      }
      r, repeat := next, again;
    }
    assert FirstEnd(env, command, passes);
  }

  // What the outcome is, on closed commands with acyclic definitions

  /** Every placeholder of the command expanded, with those in the texts they resolve to:
      no chain of definitions without a repetition is longer than there are names. */
  ghost function FullExpansion(env: Env, command: string): seq<Token> {
    Expand(DefinitionsOf(env), Parse(command), |DefinitionsOf(env)|)
  }

  /** What is left of the placeholders resolves to nothing or to the empty text. */
  ghost predicate OnlyEmptyLeft(env: Env, ts: seq<Token>) {
    forall t | t in ts && t.Hole? :: Resolve(env, t.name).Missing? || Resolve(env, t.name) == Text("")
  }

  lemma LeftoversAreEmpty(env: Env, ts: seq<Token>)
    requires !HasLive(DefinitionsOf(env), ts) && !Raises(RaisingOf(env), ts)
    ensures OnlyEmptyLeft(env, ts)
  {
    forall t | t in ts && t.Hole?
      ensures Resolve(env, t.name).Missing? || Resolve(env, t.name) == Text("")
    {
      assert !Replaceable(DefinitionsOf(env), t);
      EnvResolves(env);
    }
  }

  ghost predicate Expandable(env: Env, command: string) {
    ClosedFrom(DefinitionsOf(env), Parse(command)) && Acyclic(DefinitionsOf(env), Parse(command))
  }

  /** After as many passes as there are names nothing is replaced any more. */
  lemma EndsInTime(env: Env, command: string)
    requires Expandable(env, command)
    ensures EndsAfter(env, command, |DefinitionsOf(env)|)
    ensures !HasLive(DefinitionsOf(env), FullExpansion(env, command))
  {
    var defs := DefinitionsOf(env);
    PassesExpand(defs, command, Parse(command), |defs|);
    AcyclicEnds(defs, Parse(command));
  }

  /** A placeholder that raises is still there, however far the rest is expanded. */
  lemma RaisesStays(env: Env, ts: seq<Token>, depth: nat)
    requires Raises(RaisingOf(env), ts)
    ensures Raises(RaisingOf(env), Expand(DefinitionsOf(env), ts, depth))
  {
    var t :| t in ts && t.Hole? && t.name in RaisingOf(env);
    EnvResolves(env);
    assert !Replaceable(DefinitionsOf(env), t);
    DeadStays(DefinitionsOf(env), ts, t, depth);
  }

  /** From an earlier depth on, raising placeholders stay, and nothing live leaves all as it is. */
  lemma FromDepth(env: Env, ts: seq<Token>, k: nat, depth: nat)
    requires k <= depth
    ensures var reached, full := Expand(DefinitionsOf(env), ts, k), Expand(DefinitionsOf(env), ts, depth);
      (Raises(RaisingOf(env), reached) ==> Raises(RaisingOf(env), full)) &&
      (!HasLive(DefinitionsOf(env), reached) ==> full == reached)
  {
    hide Raises, HasLive, DefinitionsOf, RaisingOf;
    var reached := Expand(DefinitionsOf(env), ts, k);
    ExpandTwice(DefinitionsOf(env), ts, k, depth - k);
    if Raises(RaisingOf(env), reached) {
      RaisesStays(env, reached, depth - k);
    }
    if !HasLive(DefinitionsOf(env), reached) {
      NothingLive(DefinitionsOf(env), reached, depth - k);
    }
  }

  /** The text after k passes, as the expansion to depth k. */
  lemma TextAfter(env: Env, command: string, k: nat)
    requires ClosedFrom(DefinitionsOf(env), Parse(command))
    ensures var defs := DefinitionsOf(env);
      Parse(Passes(defs, command, k)) == Expand(defs, Parse(command), k) &&
      Passes(defs, command, k) == Render(Expand(defs, Parse(command), k))
  {
    hide DefinitionsOf, Expand, Passes;
    PassesExpand(DefinitionsOf(env), command, Parse(command), k);
    RenderParse(Passes(DefinitionsOf(env), command, k));
  }

  /** Where the loop first ends, the text is the full expansion, or both raise. */
  lemma FirstEndIsExpansion(env: Env, command: string, k: nat)
    requires Expandable(env, command) && FirstEnd(env, command, k)
    ensures var defs, full := DefinitionsOf(env), FullExpansion(env, command);
      k <= |defs| && OutcomeAfter(env, command, k) ==
        if Raises(RaisingOf(env), full) then Result.Raised else Ok(Render(full))
    ensures Parse(Render(FullExpansion(env, command))) == FullExpansion(env, command)
  {
    hide Raises, HasLive, Expand, DefinitionsOf, RaisingOf, Parse, Render, Passes;
    var n := |DefinitionsOf(env)|;
    EndsInTime(env, command);
    assert !(n < k);
    TextAfter(env, command, k);
    TextAfter(env, command, n);
    FromDepth(env, Parse(command), k, n);
  }

  // What is left alone, on any command

  lemma PassKeeps(defs: Definitions, text: string, name: string)
    requires Hole(name) in Parse(text) && name !in defs
    ensures Hole(name) in Parse(Pass(defs, text))
  {
    ReadNames(text, 0, name);
    InExpansion(defs, Parse(text), Hole(name), Hole(name), 1);
    HoleSurvives(Expand(defs, Parse(text), 1), name);
  }

  /** A placeholder that gives nothing, or the empty text, is never taken out of the command. */
  lemma {:induction false} EmptyStays(env: Env, command: string, name: string, k: nat)
    requires Hole(name) in Parse(command) && (Resolve(env, name).Missing? || Resolve(env, name) == Text(""))
    ensures Hole(name) in Parse(Passes(DefinitionsOf(env), command, k))
  {
    hide Parse, Pass, Resolve;
    EnvResolves(env);
    if k > 0 {
      EmptyStays(env, command, name, k - 1);
      PassKeeps(DefinitionsOf(env), Passes(DefinitionsOf(env), command, k - 1), name);
    }
  }

  /** The placeholders of the command that give nothing or the empty text are left in the result, and
      every one that is left there gives nothing or the empty text. */
  ghost predicate KeepsEmpty(env: Env, command: string, result: string) {
    OnlyEmptyLeft(env, Parse(result)) &&
    forall name | Hole(name) in Parse(command) && (Resolve(env, name).Missing? || Resolve(env, name) == Text("")) ::
      Hole(name) in Parse(result)
  }

  lemma ResultKeepsEmpty(env: Env, command: string, k: nat)
    requires EndsAfter(env, command, k) && OutcomeAfter(env, command, k).Ok?
    ensures KeepsEmpty(env, command, OutcomeAfter(env, command, k).value)
  {
    hide Parse, Passes, Resolve, Raises, HasLive, OnlyEmptyLeft;
    LeftoversAreEmpty(env, Parse(Passes(DefinitionsOf(env), command, k)));
    forall name | Hole(name) in Parse(command) && (Resolve(env, name).Missing? || Resolve(env, name) == Text(""))
      ensures Hole(name) in Parse(Passes(DefinitionsOf(env), command, k))
    {
      EmptyStays(env, command, name, k);
    }
  }

  // What the model and the programs have no say in

  ghost predicate SameTest(env: Env, other: Env) {
    env.test == other.test && env.files == other.files && env.show == other.show
  }

  ghost predicate TestHas(env: Env, ts: seq<Token>) {
    forall t | t in ts && t.Hole? :: !Lookup(env, env.test, t.name, env.files).Missing?
  }

  /** The placeholders have the same definitions. */
  predicate DefinedAlike(defs: Definitions, others: Definitions, ts: seq<Token>) {
    forall t | t in ts && t.Hole? ::
      (t.name in defs <==> t.name in others) && (t.name in defs && t.name in others ==> defs[t.name] == others[t.name])
  }

  lemma LookupAlike(env: Env, other: Env, root: Json, name: string, files: map<string, Json>)
    requires env.show == other.show
    ensures Lookup(env, root, name, files) == Lookup(other, root, name, files)
  {
  }

  lemma ResolveAlike(env: Env, other: Env, ts: seq<Token>)
    requires SameTest(env, other) && TestHas(env, ts)
    ensures DefinedAlike(DefinitionsOf(env), DefinitionsOf(other), ts)
    ensures Raises(RaisingOf(env), ts) <==> Raises(RaisingOf(other), ts)
  {
    hide Lookup;
    forall t | t in ts && t.Hole? ensures Resolve(env, t.name) == Resolve(other, t.name) {
      LookupAlike(env, other, env.test, t.name, env.files);
    }
    hide Resolve;
    EnvResolves(env);
    EnvResolves(other);
  }

  lemma {:induction false} ExpandAlike(defs: Definitions, others: Definitions, ts: seq<Token>)
    requires DefinedAlike(defs, others, ts)
    ensures Expand(defs, ts, 1) == Expand(others, ts, 1) && (HasLive(defs, ts) <==> HasLive(others, ts))
  {
    if ts != [] {
      assert ts[0] in ts && forall t | t in ts[1..] :: t in ts;
      ExpandAlike(defs, others, ts[1..]);
      assert ts == [ts[0]] + ts[1..];
      if Replaceable(defs, ts[0]) {
        ExpandZero(defs, defs[ts[0].name]);
        ExpandZero(others, defs[ts[0].name]);
      }
    }
  }

  lemma {:induction false} PassesAlike(env: Env, other: Env, command: string, k: nat)
    requires SameTest(env, other)
    requires forall j: nat | j < k :: TestHas(env, Parse(Passes(DefinitionsOf(env), command, j)))
    ensures Passes(DefinitionsOf(env), command, k) == Passes(DefinitionsOf(other), command, k)
  {
    hide DefinitionsOf, TestHas, Parse, Expand, SameTest;
    if k > 0 {
      PassesAlike(env, other, command, k - 1);
      var ts := Parse(Passes(DefinitionsOf(env), command, k - 1));
      ResolveAlike(env, other, ts);
      ExpandAlike(DefinitionsOf(env), DefinitionsOf(other), ts);
    }
  }

  /** Where every placeholder that the loop comes to is in the test, the outcome is the same whatever
      the model and the programs are. */
  lemma TestDecides(env: Env, other: Env, command: string, k: nat)
    requires SameTest(env, other) && FirstEnd(env, command, k)
    requires forall j: nat | j <= k :: TestHas(env, Parse(Passes(DefinitionsOf(env), command, j)))
    ensures FirstEnd(other, command, k)
    ensures forall j | FirstEnd(other, command, j) :: OutcomeAfter(other, command, j) == OutcomeAfter(env, command, k)
  {
    hide DefinitionsOf, TestHas, Parse, Passes, SameTest, Raises, HasLive, RaisingOf;
    forall j: nat | j <= k
      ensures EndsAfter(env, command, j) <==> EndsAfter(other, command, j)
      ensures OutcomeAfter(env, command, j) == OutcomeAfter(other, command, j)
    {
      PassesAlike(env, other, command, j);
      var ts := Parse(Passes(DefinitionsOf(env), command, j));
      ResolveAlike(env, other, ts);
      ExpandAlike(DefinitionsOf(env), DefinitionsOf(other), ts);
    }
  }

  // When the loop ends

  ghost predicate LoopEnds(env: Env, command: string) {
    exists k: nat :: EndsAfter(env, command, k)
  }

  /** On any command, an end without an exception means that no chain of its definitions returns
      to a name. */
  lemma EndsWellOnlyIfAcyclic(env: Env, command: string, k: nat)
    requires EndsAfter(env, command, k) && OutcomeAfter(env, command, k).Ok?
    ensures Acyclic(DefinitionsOf(env), Parse(command))
  {
    hide Raises, HasLive, Acyclic, Parse, Passes;
    LoopStopsOnlyIfAcyclic(TextsOf(env), command);
  }

  /** A placeholder whose lookup raises is in the tokens, or in the text at the end of a chain of
      definitions that starts in them. */
  ghost predicate ReachesRaise(defs: Definitions, raising: iset<string>, ts: seq<Token>) {
    Raises(raising, ts) || exists names :: Chain(defs, ts, names) && Raises(raising, defs[names[|names| - 1]])
  }

  lemma ReachFromTail(defs: Definitions, raising: iset<string>, ts: seq<Token>)
    requires ts != [] && ReachesRaise(defs, raising, ts[1..])
    ensures ReachesRaise(defs, raising, ts)
  {
    if names :| Chain(defs, ts[1..], names) && Raises(raising, defs[names[|names| - 1]]) {
      assert Chain(defs, ts, names);
    }
  }

  lemma ReachThrough(defs: Definitions, raising: iset<string>, ts: seq<Token>, name: string)
    requires Hole(name) in ts && name in defs && ReachesRaise(defs, raising, defs[name])
    ensures ReachesRaise(defs, raising, ts)
  {
    if Raises(raising, defs[name]) {
      assert Chain(defs, ts, [name]);
    } else {
      var names :| Chain(defs, defs[name], names) && Raises(raising, defs[names[|names| - 1]]);
      ChainCons(defs, ts, name, names);
      assert ([name] + names)[|names|] == names[|names| - 1];
    }
  }

  lemma {:induction false} RaisedIsReached(defs: Definitions, raising: iset<string>, ts: seq<Token>, depth: nat)
    requires Raises(raising, Expand(defs, ts, depth))
    ensures ReachesRaise(defs, raising, ts)
    decreases depth, |ts|
  {
    hide ReachesRaise;
    var t :| t in Expand(defs, ts, depth) && t.Hole? && t.name in raising;
    if t in Expand(defs, ts[1..], depth) {
      RaisedIsReached(defs, raising, ts[1..], depth);
      ReachFromTail(defs, raising, ts);
    } else if depth > 0 && Replaceable(defs, ts[0]) {
      RaisedIsReached(defs, raising, defs[ts[0].name], depth - 1);
      ReachThrough(defs, raising, ts, ts[0].name);
    } else {
      ReachedAtOnce(defs, raising, ts, t);
    }
  }

  lemma ReachedAtOnce(defs: Definitions, raising: iset<string>, ts: seq<Token>, t: Token)
    requires t in ts && t.Hole? && t.name in raising
    ensures ReachesRaise(defs, raising, ts)
  {
  }

  lemma {:induction false} ChainIsExpanded(defs: Definitions, ts: seq<Token>, names: seq<string>, t: Token)
    requires Chain(defs, ts, names) && t in defs[names[|names| - 1]]
    ensures t in Expand(defs, ts, |names|)
    decreases |names|
  {
    var text := defs[names[0]];
    if |names| == 1 {
      ExpandZero(defs, text);
    } else {
      assert Mentions(defs, names[0], names[1]);
      ChainIsExpanded(defs, text, names[1..], t);
    }
    InExpansion(defs, ts, Hole(names[0]), t, |names|);
  }

  /** Expanding, to whatever depth, comes to a placeholder that raises exactly when one can be
      reached along the definitions. */
  lemma RaisesAtSomeDepthIff(defs: Definitions, raising: iset<string>, ts: seq<Token>)
    ensures (exists k: nat :: Raises(raising, Expand(defs, ts, k))) <==> ReachesRaise(defs, raising, ts)
  {
    hide Expand;
    if k: nat :| Raises(raising, Expand(defs, ts, k)) {
      RaisedIsReached(defs, raising, ts, k);
    }
    if Raises(raising, ts) {
      ExpandZero(defs, ts);
      assert Raises(raising, Expand(defs, ts, 0));
    } else if ReachesRaise(defs, raising, ts) {
      var names :| Chain(defs, ts, names) && Raises(raising, defs[names[|names| - 1]]);
      var t :| t in defs[names[|names| - 1]] && t.Hole? && t.name in raising;
      ChainIsExpanded(defs, ts, names, t);
      assert Raises(raising, Expand(defs, ts, |names|));
    }
  }

  /** On a closed command the loop ends exactly when no chain of its definitions returns to a name,
      or one leads to a placeholder whose lookup raises. */
  lemma LoopEndsIff(env: Env, command: string)
    requires ClosedFrom(DefinitionsOf(env), Parse(command))
    ensures LoopEnds(env, command) <==>
      Acyclic(DefinitionsOf(env), Parse(command)) || ReachesRaise(DefinitionsOf(env), RaisingOf(env), Parse(command))
  {
    hide Raises, HasLive, Expand, DefinitionsOf, RaisingOf, Parse, Passes, Acyclic, ClosedFrom, ReachesRaise;
    var defs, raising, ts := DefinitionsOf(env), RaisingOf(env), Parse(command);
    RaisesAtSomeDepthIff(defs, raising, ts);
    if LoopEnds(env, command) {
      var k: nat :| EndsAfter(env, command, k);
      TextAfter(env, command, k);
      if OutcomeAfter(env, command, k).Ok? {
        EndsWellOnlyIfAcyclic(env, command, k);
      }
    }
    if Acyclic(defs, ts) {
      EndsInTime(env, command);
    }
    if k: nat :| Raises(raising, Expand(defs, ts, k)) {
      TextAfter(env, command, k);
      assert EndsAfter(env, command, k);
    }
  }

  /** On every command on which the loop ends, the outcome of its first end. A result means that
      the definitions are acyclic. On a closed command with acyclic definitions the loop ends,
      after at most one pass more than there are names, with the full expansion. */
  method GetReplacedCommand(env: Env, command: string) returns (r: Result<string>)
    requires LoopEnds(env, command)
    ensures exists k :: FirstEnd(env, command, k) && r == OutcomeAfter(env, command, k)
    ensures r.Ok? ==> Acyclic(DefinitionsOf(env), Parse(command)) && KeepsEmpty(env, command, r.value)
    ensures Expandable(env, command) ==>
            var full := FullExpansion(env, command);
            if Raises(RaisingOf(env), full) then r.Raised?
            else r == Ok(Render(full)) && Parse(r.value) == full && OnlyEmptyLeft(env, full)
  {
    hide Acyclic, Raises, HasLive, FullExpansion, OnlyEmptyLeft, Passes, Expandable, KeepsEmpty;
    ghost var last: nat :| EndsAfter(env, command, last);
    r := RewriteUntilDone(env, command, last);
    ghost var k :| FirstEnd(env, command, k) && r == OutcomeAfter(env, command, k);
    if r.Ok? {
      EndsWellOnlyIfAcyclic(env, command, k);
      ResultKeepsEmpty(env, command, k);
    }
    if Expandable(env, command) {
      FirstEndIsExpansion(env, command, k);
      EndsInTime(env, command);
      if !Raises(RaisingOf(env), FullExpansion(env, command)) {
        LeftoversAreEmpty(env, FullExpansion(env, command));
      }
    }
  }
}
