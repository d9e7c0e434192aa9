/** One pass over a command, and any number of them, on the text itself
    (benchmarking/frameworks/framework_base.py). */
module CommandPasses {
  import opened TokenExpansion
  import opened Placeholders

  /** The definitions behind a command: the texts that names resolve to, read as tokens. */
  function Tokens(texts: map<string, string>): Definitions {
    map name | name in texts :: Parse(texts[name])
  }

  ghost predicate Defines(texts: map<string, string>, defs: Definitions) {
    defs.Keys == texts.Keys && forall name | name in texts :: Render(defs[name]) == texts[name]
  }

  lemma TokensDefine(texts: map<string, string>)
    ensures Defines(texts, Tokens(texts))
  {
    forall name | name in texts ensures Render(Tokens(texts)[name]) == texts[name] {
      RenderParse(texts[name]);
    }
  }

  /** The text after one pass, and after k passes, over a command. */
  function Pass(defs: Definitions, command: string): string {
    Render(Expand(defs, Parse(command), 1))
  }

  function Passes(defs: Definitions, command: string, k: nat): string {
    if k == 0 then command else Pass(defs, Passes(defs, command, k - 1))
  }

  /** The text reads as the tokens expanded to the given depth. */
  predicate AtDepth(defs: Definitions, ts: seq<Token>, text: string, depth: nat) {
    Parse(text) == Expand(defs, ts, depth)
  }

  lemma PassOnce(defs: Definitions, ts: seq<Token>, text: string, depth: nat)
    requires ClosedFrom(defs, ts) && AtDepth(defs, ts, text, depth)
    ensures AtDepth(defs, ts, Pass(defs, text), depth + 1)
  {
    ExpandTwice(defs, ts, depth, 1);
    Reparse(defs, ts, depth + 1);
  }

  /** Rewriting the text k times, reading it afresh each time, is expanding it to depth k. */
  lemma {:induction false} PassesExpand(defs: Definitions, command: string, ts: seq<Token>, k: nat)
    requires ts == Parse(command) && ClosedFrom(defs, ts)
    ensures AtDepth(defs, ts, Passes(defs, command, k), k)
  {
    hide Expand, Parse, ClosedFrom, Pass;
    if k == 0 {
      ExpandZero(defs, ts);
    } else {
      PassesExpand(defs, command, ts, k - 1);
      PassOnce(defs, ts, Passes(defs, command, k - 1), k - 1);
    }
  }

  /** Some number of passes leaves nothing to replace, so that the loop stops. */
  ghost predicate LoopStops(defs: Definitions, command: string) {
    exists k: nat :: !HasLive(defs, Parse(Passes(defs, command, k)))
  }

  lemma {:induction false} InExpansion(defs: Definitions, ts: seq<Token>, t: Token, x: Token, depth: nat)
    requires t in ts && x in ExpandToken(defs, t, depth)
    ensures x in Expand(defs, ts, depth)
  {
    if t != ts[0] {
      InExpansion(defs, ts[1..], t, x, depth);
    }
  }

  /** A placeholder in the text of one that a pass replaces is there after the pass. */
  lemma PassMentions(defs: Definitions, text: string, name: string, other: string)
    requires Hole(name) in Parse(text) && Mentions(defs, name, other) && IsName(other)
    ensures Hole(other) in Parse(Pass(defs, text))
  {
    ExpandZero(defs, defs[name]);
    InExpansion(defs, Parse(text), Hole(name), Hole(other), 1);
    HoleSurvives(Expand(defs, Parse(text), 1), other);
  }

  /** Whatever concatenation makes of a text, a chain of definitions keeps a placeholder in it
      to replace for as many passes as it is long. */
  lemma {:induction false} ChainIsRead(texts: map<string, string>, command: string, names: seq<string>, k: nat)
    requires Chain(Tokens(texts), Parse(command), names) && k < |names|
    ensures Hole(names[k]) in Parse(Passes(Tokens(texts), command, k))
  {
    if k > 0 {
      var name, other := names[k - 1], names[k];
      ChainIsRead(texts, command, names, k - 1);
      assert Mentions(Tokens(texts), name, other);
      ReadNames(texts[name], 0, other);
      PassMentions(Tokens(texts), Passes(Tokens(texts), command, k - 1), name, other);
    }
  }

  /** On any command the loop stops only if no chain of its definitions returns to a name. */
  lemma LoopStopsOnlyIfAcyclic(texts: map<string, string>, command: string)
    requires LoopStops(Tokens(texts), command)
    ensures Acyclic(Tokens(texts), Parse(command))
  {
    var defs, ts := Tokens(texts), Parse(command);
    if !Acyclic(defs, ts) {
      var k: nat :| !HasLive(defs, Parse(Passes(defs, command, k)));
      var names, i, j :| Chain(defs, ts, names) && 0 <= i < j < |names| && names[i] == names[j];
      var longer := Pump(defs, ts, names, i, j, k + 1);
      ChainIsRead(texts, command, longer, k);
      assert Replaceable(defs, Hole(longer[k]));
    }
  }

  /** The loop on a closed command stops exactly when its definitions are acyclic. */
  lemma LoopStopsIffAcyclic(defs: Definitions, command: string)
    requires ClosedFrom(defs, Parse(command))
    ensures LoopStops(defs, command) <==> Acyclic(defs, Parse(command))
  {
    var ts := Parse(command);
    StopsIffAcyclic(defs, ts);
    if Stops(defs, ts) {
      var k: nat :| !HasLive(defs, Expand(defs, ts, k));
      PassesExpand(defs, command, ts, k);
      assert !HasLive(defs, Parse(Passes(defs, command, k)));
    }
    if LoopStops(defs, command) {
      var k: nat :| !HasLive(defs, Parse(Passes(defs, command, k)));
      PassesExpand(defs, command, ts, k);
      assert !HasLive(defs, Expand(defs, ts, k));
    }
  }

  // The text a pass leaves, piece by piece.

  /** What a pass leaves from position i on. */
  function PassFrom(defs: Definitions, s: string, i: nat): string
    requires i <= |s|
  {
    Render(Expand(defs, ParseFrom(s, i), 1))
  }

  /** What a pass puts in the place of a placeholder. */
  function Piece(texts: map<string, string>, name: string): string {
    if name in texts then texts[name] else "{" + name + "}"
  }

  lemma PassHole(texts: map<string, string>, defs: Definitions, name: string, rest: seq<Token>)
    requires Defines(texts, defs)
    ensures Render(Expand(defs, [Hole(name)] + rest, 1)) == Piece(texts, name) + Render(Expand(defs, rest, 1))
  {
    var ts := [Hole(name)] + rest;
    assert ts[1..] == rest;
    RenderAppend(ExpandToken(defs, ts[0], 1), Expand(defs, rest, 1));
    if name in texts {
      ExpandZero(defs, defs[name]);
    } else {
      assert Render([Hole(name)]) == "{" + name + "}";
    }
  }

  lemma PassLit(defs: Definitions, c: char, rest: seq<Token>)
    ensures Render(Expand(defs, [Lit(c)] + rest, 1)) == [c] + Render(Expand(defs, rest, 1))
  {
    var ts := [Lit(c)] + rest;
    assert ts[1..] == rest;
    RenderAppend([Lit(c)], Expand(defs, rest, 1));
  }

  lemma Prepend(s: string, i: nat, j: nat, tail: string)
    requires i < j <= |s|
    ensures s[i..j] + tail == [s[i]] + (s[i + 1..j] + tail)
  {
  }

  /** Text without placeholders is kept. */
  lemma {:induction false} PassGap(defs: Definitions, s: string, i: nat, j: nat)
    requires i <= j && NoHoleIn(s, i, j)
    ensures PassFrom(defs, s, i) == s[i..j] + PassFrom(defs, s, j)
    decreases j - i
  {
    if i < j {
      PassGap(defs, s, i + 1, j);
      PassLit(defs, s[i], ParseFrom(s, i + 1));
      Prepend(s, i, j, PassFrom(defs, s, j));
    }
  }

  lemma PassAtHole(texts: map<string, string>, defs: Definitions, s: string, i: nat)
    requires Defines(texts, defs) && i < |s| && HoleEnd(s, i) != i
    ensures var end := HoleEnd(s, i);
            PassFrom(defs, s, i) == Piece(texts, s[i + 1..end - 1]) + PassFrom(defs, s, end)
  {
    hide HoleEnd, Piece, Defines, Expand, Render;
    var end := HoleEnd(s, i);
    PassHole(texts, defs, s[i + 1..end - 1], ParseFrom(s, end));
  }

  /** The text with the placeholders from position p on replaced and those before not. */
  function ReplacedFrom(defs: Definitions, s: string, p: nat): string
    requires p <= |s|
  {
    s[..p] + PassFrom(defs, s, p)
  }

  function Splice(text: string, m: Match, replacement: string): string
    requires m.start <= m.end <= |text|
  {
    text[..m.start] + replacement + text[m.end..]
  }

  lemma SplitText(s: string, p: nat, m: Match, piece: string, tail: string)
    requires p <= m.start <= m.end <= |s|
    ensures s[..p] + (s[p..m.start] + (piece + tail)) == Splice(s[..m.end] + tail, m, piece)
    ensures piece == s[m.start..m.end] ==> Splice(s[..m.end] + tail, m, piece) == s[..m.end] + tail
  {
    assert s[..p] + s[p..m.start] == s[..m.start];
    assert s[..m.start] + s[m.start..m.end] == s[..m.end];
  }

  lemma HoleShown(s: string, m: Match)
    requires m.start < |s| && m.end == HoleEnd(s, m.start) != m.start && m.content == s[m.start + 1..m.end - 1]
    ensures s[m.start..m.end] == "{" + m.content + "}"
  {
  }

  lemma PassMatch(texts: map<string, string>, defs: Definitions, s: string, p: nat, m: Match)
    requires Defines(texts, defs) && NextMatch(s, p, m)
    ensures m.end <= |s|
    ensures PassFrom(defs, s, p) == s[p..m.start] + (Piece(texts, m.content) + PassFrom(defs, s, m.end))
  {
    hide PassFrom;
    hide Piece;
    PassGap(defs, s, p, m.start);
    PassAtHole(texts, defs, s, m.start);
  }

  /** Matches replaced further back do not move this one: its offsets still frame it. */
  lemma ReplaceStep(texts: map<string, string>, defs: Definitions, s: string, p: nat, m: Match)
    requires Defines(texts, defs) && NextMatch(s, p, m)
    ensures m.end <= |s| && m.start <= m.end <= |ReplacedFrom(defs, s, m.end)|
    ensures ReplacedFrom(defs, s, p) ==
            if m.content in texts then Splice(ReplacedFrom(defs, s, m.end), m, texts[m.content])
            else ReplacedFrom(defs, s, m.end)
  {
    hide PassFrom;
    PassMatch(texts, defs, s, p, m);
    HoleShown(s, m);
    SplitText(s, p, m, Piece(texts, m.content), PassFrom(defs, s, m.end));
  }

  lemma ReplacedEnds(defs: Definitions, s: string, p: nat)
    requires p <= |s| && NoHoleIn(s, p, |s|)
    ensures ReplacedFrom(defs, s, p) == s && ReplacedFrom(defs, s, 0) == Pass(defs, s)
  {
    PassGap(defs, s, p, |s|);
    assert s[..p] + s[p..] == s;
  }
}
