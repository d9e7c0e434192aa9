/** Finding placeholders in the text of a command, and reading an expanded command back
    (benchmarking/frameworks/framework_base.py). */
module Placeholders {
  import opened TokenExpansion

  // Placeholders in a text: the pattern is a brace, name characters, a closing brace.

  predicate NameChar(c: char) {
    'a' <= c <= 'z' || 'A' <= c <= 'Z' || '0' <= c <= '9' || c == '_' || c == '|' || c == '.'
  }

  /** Names go up to the ends of the alphabets and digits, and no further. */
  lemma NameCharBounds()
    ensures IsName("azAZ09_|.") && !NameChar('{') && !NameChar('}') && !NameChar(' ') && !NameChar('-')
    ensures !NameChar('`') && !NameChar('@') && !NameChar('[') && !NameChar('/') && !NameChar(':') && !NameChar('^')
  {
  }

  predicate IsName(s: string) {
    s != "" && forall i | 0 <= i < |s| :: NameChar(s[i])
  }

  /** Where the run of name characters from position i ends. */
  function NameEnd(s: string, i: nat): (end: nat)
    requires i <= |s|
    ensures i <= end <= |s|
    decreases |s| - i
  {
    if i < |s| && NameChar(s[i]) then NameEnd(s, i + 1) else i
  }

  /** The end of the placeholder that starts at position i, or i itself. */
  function HoleEnd(s: string, i: nat): (end: nat)
    requires i < |s|
    ensures end == i || i + 2 < end <= |s|
  {
    var end := NameEnd(s, i + 1);
    if s[i] == '{' && end > i + 1 && end < |s| && s[end] == '}' then end + 1 else i
  }

  datatype Match = Match(start: nat, end: nat, content: string)

  /** The matches `pattern.finditer` yields from position i on. */
  function FindIter(s: string, i: nat): (ms: seq<Match>)
    requires i <= |s|
    decreases |s| - i
  {
    if i == |s| then []
    else
      var end := HoleEnd(s, i);
      if end == i then FindIter(s, i + 1)
      else [Match(i, end, s[i + 1..end - 1])] + FindIter(s, end)
  }

  function ParseFrom(s: string, i: nat): seq<Token>
    requires i <= |s|
    decreases |s| - i
  {
    if i == |s| then []
    else
      var end := HoleEnd(s, i);
      if end == i then [Lit(s[i])] + ParseFrom(s, i + 1)
      else [Hole(s[i + 1..end - 1])] + ParseFrom(s, end)
  }

  function Parse(s: string): seq<Token> {
    ParseFrom(s, 0)
  }

  function Shown(t: Token): string {
    if t.Lit? then [t.c] else "{" + t.name + "}"
  }

  function Render(ts: seq<Token>): string {
    if ts == [] then "" else Shown(ts[0]) + Render(ts[1..])
  }

  lemma {:induction false} RenderAppend(a: seq<Token>, b: seq<Token>)
    ensures Render(a + b) == Render(a) + Render(b)
  {
    if a == [] {
      assert a + b == b;
    } else {
      assert (a + b)[1..] == a[1..] + b;
      RenderAppend(a[1..], b);
    }
  }

  lemma HoleText(s: string, i: nat)
    requires i < |s| && HoleEnd(s, i) != i
    ensures var end := HoleEnd(s, i); s[i..] == "{" + s[i + 1..end - 1] + "}" + s[end..]
  {
  }

  lemma RenderCons(t: Token, rest: seq<Token>)
    ensures Render([t] + rest) == Shown(t) + Render(rest)
  {
    assert ([t] + rest)[1..] == rest;
  }

  lemma {:induction false} RenderParseFrom(s: string, i: nat)
    requires i <= |s|
    ensures Render(ParseFrom(s, i)) == s[i..]
    decreases |s| - i
  {
    hide HoleEnd, Render;
    if i == |s| {
      RenderNothing();
    } else {
      var end := HoleEnd(s, i);
      if end == i {
        RenderParseFrom(s, i + 1);
        RenderCons(Lit(s[i]), ParseFrom(s, i + 1));
      } else {
        RenderParseFrom(s, end);
        RenderCons(Hole(s[i + 1..end - 1]), ParseFrom(s, end));
        HoleText(s, i);
      }
    }
  }

  lemma RenderNothing()
    ensures Render([]) == ""
  {
  }

  lemma RenderParse(s: string)
    ensures Render(Parse(s)) == s
  {
    RenderParseFrom(s, 0);
  }

  // Text that cannot become part of a placeholder when its neighbours change: no literal
  // brace is followed by name characters only up to a placeholder or to the end.

  /** What follows a literal brace rules a placeholder out, whatever comes later. */
  predicate Settled(ts: seq<Token>, named: bool) {
    ts != [] && ts[0].Lit? &&
    if NameChar(ts[0].c) then Settled(ts[1..], true) else ts[0].c == '}' ==> !named
  }

  predicate Closed(ts: seq<Token>) {
    ts == [] ||
    ((ts[0] == Lit('{') ==> Settled(ts[1..], false)) &&
     (ts[0].Hole? ==> IsName(ts[0].name)) &&
     Closed(ts[1..]))
  }

  lemma {:induction false} SettledAppend(a: seq<Token>, b: seq<Token>, named: bool)
    requires Settled(a, named)
    ensures Settled(a + b, named)
  {
    assert (a + b)[1..] == a[1..] + b;
    if NameChar(a[0].c) {
      SettledAppend(a[1..], b, true);
    }
  }

  lemma {:induction false} ClosedAppend(a: seq<Token>, b: seq<Token>)
    requires Closed(a) && Closed(b)
    ensures Closed(a + b)
  {
    if a == [] {
      assert a + b == b;
    } else {
      assert (a + b)[1..] == a[1..] + b;
      ClosedAppend(a[1..], b);
      if a[0] == Lit('{') {
        SettledAppend(a[1..], b, false);
      }
    }
  }

  lemma {:induction false} NameEndOf(s: string, i: nat, end: nat)
    requires i <= end < |s| && (forall k | i <= k < end :: NameChar(s[k])) && !NameChar(s[end])
    ensures NameEnd(s, i) == end
    decreases end - i
  {
    if i < end {
      NameEndOf(s, i + 1, end);
    }
  }

  /** From position i on the text is that of the tokens. */
  predicate Spells(s: string, i: nat, ts: seq<Token>)
    decreases |ts|
  {
    if ts == [] then i == |s|
    else match ts[0]
      case Lit(c) => i < |s| && s[i] == c && Spells(s, i + 1, ts[1..])
      case Hole(name) => SpellsHole(s, i, name) && Spells(s, i + |name| + 2, ts[1..])
  }

  predicate SpellsHole(s: string, i: nat, name: string) {
    i + |name| + 2 <= |s| && s[i] == '{' && s[i + |name| + 1] == '}' &&
    forall k | 0 <= k < |name| :: s[i + 1 + k] == name[k]
  }

  lemma {:induction false} SpellsLater(before: string, s: string, i: nat, ts: seq<Token>)
    requires Spells(s, i, ts)
    ensures Spells(before + s, |before| + i, ts)
    decreases |ts|
  {
    if ts != [] {
      if ts[0].Lit? {
        SpellsLater(before, s, i + 1, ts[1..]);
      } else {
        SpellsLater(before, s, i + |ts[0].name| + 2, ts[1..]);
      }
    }
  }

  lemma ShownIsSpelled(t: Token, rest: string)
    ensures |Shown(t)| == if t.Lit? then 1 else |t.name| + 2
    ensures if t.Lit? then Shown(t)[0] == t.c else SpellsHole(Shown(t) + rest, 0, t.name)
  {
  }

  lemma {:induction false} RenderSpells(ts: seq<Token>)
    ensures Spells(Render(ts), 0, ts)
  {
    hide Shown, SpellsHole;
    if ts != [] {
      ShownIsSpelled(ts[0], Render(ts[1..]));
      RenderSpells(ts[1..]);
      SpellsLater(Shown(ts[0]), Render(ts[1..]), 0, ts[1..]);
    }
  }

  lemma {:induction false} SettledHasNoHole(s: string, i: nat, ts: seq<Token>, named: bool)
    requires i <= |s| && Spells(s, i, ts) && Settled(ts, named)
    ensures var end := NameEnd(s, i); end < |s| && (s[end] == '}' ==> end == i && !named)
    decreases |ts|
  {
    if NameChar(ts[0].c) {
      SettledHasNoHole(s, i + 1, ts[1..], true);
    }
  }

  lemma HoleIsRead(s: string, i: nat, name: string)
    requires IsName(name) && SpellsHole(s, i, name)
    ensures i + |name| + 2 <= |s| && HoleEnd(s, i) == i + |name| + 2
  {
    forall k | i < k <= i + |name| ensures NameChar(s[k]) {
      assert s[i + 1 + (k - i - 1)] == name[k - i - 1];
    }
    NameEndOf(s, i + 1, i + 1 + |name|);
  }

  lemma LitIsRead(s: string, i: nat, ts: seq<Token>)
    requires Spells(s, i, ts) && ts != [] && ts[0].Lit? && (ts[0].c == '{' ==> Settled(ts[1..], false))
    ensures HoleEnd(s, i) == i
  {
    if ts[0].c == '{' {
      SettledHasNoHole(s, i + 1, ts[1..], false);
    }
  }

  lemma SpelledSlice(s: string, p: nat, name: string)
    requires SpellsHole(s, p, name)
    ensures s[p + 1..p + |name| + 1] == name
  {
  }

  lemma {:induction false} SpelledIsParsed(s: string, i: nat, ts: seq<Token>)
    requires i <= |s| && Spells(s, i, ts) && Closed(ts)
    ensures ParseFrom(s, i) == ts
    decreases |ts|
  {
    hide HoleEnd, SpellsHole, Settled, IsName;
    if ts != [] {
      if ts[0].Lit? {
        LitIsRead(s, i, ts);
        SpelledIsParsed(s, i + 1, ts[1..]);
      } else {
        HoleIsRead(s, i, ts[0].name);
        SpelledSlice(s, i, ts[0].name);
        SpelledIsParsed(s, i + |ts[0].name| + 2, ts[1..]);
      }
    }
  }

  /** A closed text is read back as the tokens it was written from. */
  lemma ParseRender(ts: seq<Token>)
    requires Closed(ts)
    ensures Parse(Render(ts)) == ts
  {
    RenderSpells(ts);
    SpelledIsParsed(Render(ts), 0, ts);
  }

  // A placeholder in a text is always read, whatever surrounds it.

  lemma {:induction false} NameEndChars(s: string, i: nat, k: nat)
    requires i <= |s| && i <= k < NameEnd(s, i)
    ensures NameChar(s[k])
    decreases |s| - i
  {
    if i < k {
      NameEndChars(s, i + 1, k);
    }
  }

  /** What is read as a placeholder has a name of name characters. */
  lemma {:induction false} ReadNames(s: string, i: nat, name: string)
    requires i <= |s| && Hole(name) in ParseFrom(s, i)
    ensures IsName(name)
    decreases |s| - i
  {
    var end := HoleEnd(s, i);
    if end == i {
      ReadNames(s, i + 1, name);
    } else if name == s[i + 1..end - 1] {
      forall k | 0 <= k < |name| ensures NameChar(name[k]) {
        NameEndChars(s, i + 1, i + 1 + k);
      }
    } else {
      ReadNames(s, end, name);
    }
  }

  /** No earlier brace swallows it: a match before it ends before its brace. */
  lemma MatchEndsBefore(s: string, i: nat, p: nat)
    requires i < p < |s| && s[p] == '{' && HoleEnd(s, i) != i
    ensures HoleEnd(s, i) <= p
  {
    if p < HoleEnd(s, i) - 1 {
      NameEndChars(s, i + 1, p);
    }
  }

  lemma ReadHere(s: string, p: nat, name: string)
    requires IsName(name) && SpellsHole(s, p, name)
    ensures Hole(name) in ParseFrom(s, p)
  {
    HoleIsRead(s, p, name);
    var end := p + |name| + 2;
    hide HoleEnd, SpellsHole;
    assert s[p + 1..end - 1] == name by {
      SpelledSlice(s, p, name);
    }
    assert ParseFrom(s, p)[0] == Hole(name);
  }

  /** The placeholders read from a position are the one there and those read later. */
  lemma ReadStep(s: string, i: nat, name: string)
    requires i < |s|
    ensures var end := HoleEnd(s, i);
            Hole(name) in ParseFrom(s, i) <==>
            if end == i then Hole(name) in ParseFrom(s, i + 1)
            else s[i + 1..end - 1] == name || Hole(name) in ParseFrom(s, end)
  {
    hide HoleEnd;
    var end := HoleEnd(s, i);
    if end == i {
      InCons(Lit(s[i]), ParseFrom(s, i + 1), Hole(name));
    } else {
      InCons(Hole(s[i + 1..end - 1]), ParseFrom(s, end), Hole(name));
    }
  }

  lemma InCons(first: Token, rest: seq<Token>, t: Token)
    ensures t in [first] + rest <==> t == first || t in rest
  {
  }

  lemma {:induction false} SpelledIsRead(s: string, i: nat, p: nat, name: string)
    requires i <= p && IsName(name) && SpellsHole(s, p, name)
    ensures Hole(name) in ParseFrom(s, i)
    decreases p - i
  {
    hide ParseFrom, IsName;
    if i == p {
      ReadHere(s, p, name);
    } else {
      if HoleEnd(s, i) != i {
        MatchEndsBefore(s, i, p);
      }
      SpelledIsRead(s, if HoleEnd(s, i) == i then i + 1 else HoleEnd(s, i), p, name);
      ReadStep(s, i, name);
    }
  }

  lemma {:induction false} SpelledAt(s: string, i: nat, ts: seq<Token>, k: nat) returns (p: nat)
    requires Spells(s, i, ts) && k < |ts| && ts[k].Hole?
    ensures SpellsHole(s, p, ts[k].name)
    decreases k
  {
    hide SpellsHole;
    if k == 0 {
      p := i;
    } else {
      p := SpelledAt(s, i + |Shown(ts[0])|, ts[1..], k - 1);
    }
  }

  lemma HoleIsSpelled(ts: seq<Token>, name: string) returns (p: nat)
    requires Hole(name) in ts
    ensures SpellsHole(Render(ts), p, name)
  {
    hide Spells, SpellsHole, Render;
    RenderSpells(ts);
    var k :| 0 <= k < |ts| && ts[k] == Hole(name);
    p := SpelledAt(Render(ts), 0, ts, k);
  }

  /** So a placeholder among the tokens is among those that their text is read as. */
  lemma HoleSurvives(ts: seq<Token>, name: string)
    requires Hole(name) in ts && IsName(name)
    ensures Hole(name) in Parse(Render(ts))
  {
    var p := HoleIsSpelled(ts, name);
    SpelledIsRead(Render(ts), 0, p, name);
  }

  // Where the matches lie: each at a placeholder, with none between it and the one before.

  ghost predicate NoHoleIn(s: string, from: nat, to: nat) {
    to <= |s| && forall j | from <= j < to :: HoleEnd(s, j) == j
  }

  /** Where the match before the k-th one ends. */
  function PlaceBefore(ms: seq<Match>, k: nat, from: nat): nat
    requires k <= |ms|
  {
    if k == 0 then from else ms[k - 1].end
  }

  /** A placeholder found at or after a position, with none before it. */
  ghost predicate NextMatch(s: string, from: nat, m: Match) {
    from <= m.start < |s| && m.end == HoleEnd(s, m.start) && m.end != m.start &&
    m.content == s[m.start + 1..m.end - 1] && NoHoleIn(s, from, m.start)
  }

  lemma PlaceCons(m: Match, rest: seq<Match>, k: nat, from: nat)
    requires 0 < k <= |rest| + 1
    ensures PlaceBefore([m] + rest, k, from) == PlaceBefore(rest, k - 1, m.end)
    ensures k <= |rest| ==> ([m] + rest)[k] == rest[k - 1]
  {
    if k > 1 {
      assert ([m] + rest)[k - 1] == rest[k - 2];
    }
  }

  lemma {:induction false} MatchAt(s: string, i: nat, k: nat)
    requires i <= |s| && k < |FindIter(s, i)|
    ensures NextMatch(s, PlaceBefore(FindIter(s, i), k, i), FindIter(s, i)[k])
    decreases |s| - i
  {
    hide HoleEnd;
    var end := HoleEnd(s, i);
    if end == i {
      MatchAt(s, i + 1, k);
    } else if k > 0 {
      MatchAt(s, end, k - 1);
      PlaceCons(Match(i, end, s[i + 1..end - 1]), FindIter(s, end), k, i);
    }
  }

  lemma {:induction false} NoHoleAfterLast(s: string, i: nat)
    requires i <= |s|
    ensures var ms := FindIter(s, i); PlaceBefore(ms, |ms|, i) <= |s| && NoHoleIn(s, PlaceBefore(ms, |ms|, i), |s|)
    decreases |s| - i
  {
    hide HoleEnd;
    if i < |s| {
      var end := HoleEnd(s, i);
      if end == i {
        NoHoleAfterLast(s, i + 1);
      } else {
        NoHoleAfterLast(s, end);
        var rest := FindIter(s, end);
        PlaceCons(Match(i, end, s[i + 1..end - 1]), rest, |rest| + 1, i);
      }
    }
  }

  /** The matches of a text in their order, with none left out. */
  ghost predicate AllMatches(s: string, ms: seq<Match>) {
    (forall k {:trigger PlaceBefore(ms, k, 0)} | 0 <= k < |ms| :: NextMatch(s, PlaceBefore(ms, k, 0), ms[k])) &&
    NoHoleIn(s, PlaceBefore(ms, |ms|, 0), |s|) && PlaceBefore(ms, |ms|, 0) <= |s|
  }

  lemma FindIterIsAll(s: string)
    ensures AllMatches(s, FindIter(s, 0))
  {
    var ms := FindIter(s, 0);
    forall k | 0 <= k < |ms| ensures NextMatch(s, PlaceBefore(ms, k, 0), ms[k]) {
      MatchAt(s, 0, k);
    }
    NoHoleAfterLast(s, 0);
  }

  // The matches found in a text are the placeholders among its tokens.

  predicate Finds(ms: seq<Match>, name: string) {
    exists k | 0 <= k < |ms| :: ms[k].content == name
  }

  lemma FindsCons(m: Match, rest: seq<Match>, name: string)
    ensures Finds([m] + rest, name) <==> m.content == name || Finds(rest, name)
  {
    var ms := [m] + rest;
    assert ms[0].content == m.content;
    forall k | 0 <= k < |rest| ensures ms[k + 1] == rest[k] {
    }
  }

  lemma FindStep(s: string, i: nat, name: string)
    requires i < |s|
    ensures var end := HoleEnd(s, i);
            Finds(FindIter(s, i), name) <==>
            if end == i then Finds(FindIter(s, i + 1), name)
            else s[i + 1..end - 1] == name || Finds(FindIter(s, end), name)
  {
    hide HoleEnd, Finds;
    var end := HoleEnd(s, i);
    if end != i {
      FindsCons(Match(i, end, s[i + 1..end - 1]), FindIter(s, end), name);
    }
  }

  lemma {:induction false} FindsTheHoles(s: string, i: nat, name: string)
    requires i <= |s|
    ensures Finds(FindIter(s, i), name) <==> Hole(name) in ParseFrom(s, i)
    decreases |s| - i
  {
    if i == |s| {
      FindsNone(name);
    } else {
      hide HoleEnd, Finds, ParseFrom, FindIter;
      ReadStep(s, i, name);
      FindStep(s, i, name);
      FindsTheHoles(s, if HoleEnd(s, i) == i then i + 1 else HoleEnd(s, i), name);
    }
  }

  lemma FindsNone(name: string)
    ensures !Finds([], name)
  {
  }

  // Closed texts stay closed, so that every pass finds the expected placeholders.

  /** The command and every text its chains of definitions lead to are closed. */
  ghost predicate ClosedFrom(defs: Definitions, ts: seq<Token>) {
    Closed(ts) && forall names | Chain(defs, ts, names) :: Closed(defs[names[|names| - 1]])
  }

  lemma {:induction false} SettledExpand(defs: Definitions, ts: seq<Token>, named: bool, depth: nat)
    requires Settled(ts, named)
    ensures Settled(Expand(defs, ts, depth), named)
  {
    assert ExpandToken(defs, ts[0], depth) == [ts[0]];
    if NameChar(ts[0].c) {
      SettledExpand(defs, ts[1..], true, depth);
    }
  }

  lemma ClosedFromDefinition(defs: Definitions, ts: seq<Token>, name: string)
    requires ClosedFrom(defs, ts) && Hole(name) in ts && name in defs
    ensures ClosedFrom(defs, defs[name])
  {
    assert Chain(defs, ts, [name]);
    forall rest | Chain(defs, defs[name], rest)
      ensures Closed(defs[rest[|rest| - 1]])
    {
      ChainCons(defs, ts, name, rest);
      assert ([name] + rest)[|rest|] == rest[|rest| - 1];
    }
  }

  lemma ClosedFromTail(defs: Definitions, ts: seq<Token>)
    requires ClosedFrom(defs, ts) && ts != []
    ensures ClosedFrom(defs, ts[1..])
  {
    forall names | Chain(defs, ts[1..], names) ensures Closed(defs[names[|names| - 1]]) {
      assert Chain(defs, ts, names);
    }
  }

  lemma {:induction false} ClosedExpand(defs: Definitions, ts: seq<Token>, depth: nat)
    requires ClosedFrom(defs, ts)
    ensures Closed(Expand(defs, ts, depth))
    decreases depth, 1, |ts|
  {
    if ts != [] {
      ClosedFromTail(defs, ts);
      ClosedExpand(defs, ts[1..], depth);
      if depth > 0 && Replaceable(defs, ts[0]) {
        ClosedExpandToken(defs, ts, depth);
      } else {
        ClosedCons(defs, ts, depth);
      }
    }
  }

  lemma {:induction false} ClosedExpandToken(defs: Definitions, ts: seq<Token>, depth: nat)
    requires ClosedFrom(defs, ts) && ts != [] && depth > 0 && Replaceable(defs, ts[0])
    requires Closed(Expand(defs, ts[1..], depth))
    ensures Closed(ExpandToken(defs, ts[0], depth) + Expand(defs, ts[1..], depth))
    decreases depth, 0, 0
  {
    var definition := defs[ts[0].name];
    assert ClosedFrom(defs, definition) by {
      ClosedFromDefinition(defs, ts, ts[0].name);
    }
    ClosedExpand(defs, definition, depth - 1);
    ClosedAppend(ExpandToken(defs, ts[0], depth), Expand(defs, ts[1..], depth));
  }

  lemma ClosedCons(defs: Definitions, ts: seq<Token>, depth: nat)
    requires Closed(ts) && ts != [] && Closed(Expand(defs, ts[1..], depth))
    ensures Closed([ts[0]] + Expand(defs, ts[1..], depth))
  {
    if ts[0] == Lit('{') {
      SettledExpand(defs, ts[1..], false, depth);
    }
  }

  /** An expanded command is read back as the tokens it was expanded to. */
  lemma Reparse(defs: Definitions, ts: seq<Token>, depth: nat)
    requires ClosedFrom(defs, ts)
    ensures Parse(Render(Expand(defs, ts, depth))) == Expand(defs, ts, depth)
  {
    ClosedExpand(defs, ts, depth);
    ParseRender(Expand(defs, ts, depth));
  }
}
