/** Python's `str.replace`, and replacing several placeholders `{name}` one after another. */
module TextReplace {

  /** `text.replace(pattern, replacement)`: occurrences from the left, not overlapping. */
  function Replace(text: string, pattern: string, replacement: string): string
    requires pattern != ""
  {
    if |text| < |pattern| then text
    else if text[..|pattern|] == pattern then replacement + Replace(text[|pattern|..], pattern, replacement)
    else [text[0]] + Replace(text[1..], pattern, replacement)
  }

  function Hole(name: string): (hole: string)
    ensures |hole| == |name| + 2
  {
    "{" + name + "}"
  }

  predicate BraceFree(text: string) {
    '{' !in text && '}' !in text
  }

  /** Names and replacement texts without braces. */
  predicate BraceFreeMap(values: map<string, string>) {
    forall name | name in values :: BraceFree(name) && BraceFree(values[name])
  }

  /** The position of the first closing brace, or the length. */
  function Closing(text: string): (j: nat)
    ensures j <= |text| && '}' !in text[..j] && (j < |text| ==> text[j] == '}')
  {
    if text == "" || text[0] == '}' then 0
    else
      assert text[..1 + Closing(text[1..])] == [text[0]] + text[1..][..Closing(text[1..])];
      1 + Closing(text[1..])
  }

  /** What follows an opening brace is plain text and placeholders up to a closing brace, at
      least one placeholder if none was seen before. */
  predicate NestTail(text: string, seen: bool)
    decreases |text|
  {
    if text == "" then false
    else if text[0] == '}' then seen
    else if text[0] != '{' then NestTail(text[1..], seen)
    else
      var j := Closing(text);
      0 < j < |text| && '{' !in text[1..j] && NestTail(text[j + 1..], true)
  }

  /** Some braces enclose plain text and at least one placeholder. */
  predicate Nests(text: string) {
    text != "" && ((text[0] == '{' && NestTail(text[1..], false)) || Nests(text[1..]))
  }

  /** No closing brace comes before the first opening one. */
  predicate OpensFirst(text: string) {
    Closing(text) == |text| || '{' in text[..Closing(text)]
  }

  /** Every placeholder that has a value replaced by it, in one reading from left to right. */
  function Simultaneous(text: string, values: map<string, string>): string
    decreases |text|
  {
    if text == "" then ""
    else
      var j := Closing(text);
      if text[0] == '{' && 0 < j < |text| && text[1..j] in values then
        values[text[1..j]] + Simultaneous(text[j + 1..], values)
      else [text[0]] + Simultaneous(text[1..], values)
  }

  // Reading a text piece by piece

  lemma {:induction false} ClosingAfter(start: string, rest: string)
    requires '}' !in start
    ensures Closing(start + rest) == |start| + Closing(rest)
    decreases |start|
  {
    if start == "" {
      assert start + rest == rest;
    } else {
      assert start == [start[0]] + start[1..];
      assert (start + rest)[1..] == start[1..] + rest;
      ClosingAfter(start[1..], rest);
    }
  }

  lemma {:induction false} PlainStart(start: string, rest: string, values: map<string, string>)
    requires '{' !in start
    ensures Simultaneous(start + rest, values) == start + Simultaneous(rest, values)
    ensures Nests(start + rest) == Nests(rest)
    decreases |start|
  {
    if start == "" {
      assert start + rest == rest;
    } else {
      assert start == [start[0]] + start[1..];
      assert (start + rest)[1..] == start[1..] + rest;
      PlainStart(start[1..], rest, values);
      assert [start[0]] + (start[1..] + Simultaneous(rest, values)) == start + Simultaneous(rest, values);
    }
  }

  lemma HoleParts(name: string, rest: string)
    requires BraceFree(name)
    ensures Closing(Hole(name) + rest) == |name| + 1
    ensures (Hole(name) + rest)[1..|name| + 1] == name && (Hole(name) + rest)[|name| + 2..] == rest
    ensures (Hole(name) + rest)[1..] == (name + "}") + rest && (Hole(name) + rest)[0] == '{'
  {
    assert Hole(name) + rest == ("{" + name) + ("}" + rest);
    ClosingAfter("{" + name, "}" + rest);
  }

  /** What one placeholder reads as. */
  function Filled(name: string, values: map<string, string>): string {
    if name in values then values[name] else Hole(name)
  }

  lemma {:induction false} PlainTail(start: string, rest: string, seen: bool)
    requires BraceFree(start)
    ensures NestTail(start + rest, seen) == NestTail(rest, seen)
    decreases |start|
  {
    if start == "" {
      assert start + rest == rest;
    } else {
      assert start == [start[0]] + start[1..];
      assert (start + rest)[1..] == start[1..] + rest;
      PlainTail(start[1..], rest, seen);
    }
  }

  /** Reading on at an opening brace that is closed. */
  lemma AtBrace(text: string, inside: string, rest: string, values: map<string, string>)
    requires text != "" && text[0] == '{' && 0 < Closing(text) < |text|
    requires inside == text[1..Closing(text)] && rest == text[Closing(text) + 1..]
    ensures Simultaneous(text, values) ==
      if inside in values then values[inside] + Simultaneous(rest, values) else "{" + Simultaneous(text[1..], values)
    ensures NestTail(text, false) == NestTail(text, true) == ('{' !in inside && NestTail(rest, true))
  {
  }

  lemma HoleStart(name: string, rest: string, values: map<string, string>)
    requires BraceFree(name)
    ensures Simultaneous(Hole(name) + rest, values) == Filled(name, values) + Simultaneous(rest, values)
    ensures NestTail(Hole(name) + rest, false) == NestTail(Hole(name) + rest, true) == NestTail(rest, true)
  {
    hide Simultaneous, NestTail, Nests, Closing;
    HoleParts(name, rest);
    AtBrace(Hole(name) + rest, name, rest, values);
    PlainStart(name + "}", rest, values);
    Regroup(name, Simultaneous(rest, values));
  }

  /** A placeholder at the start is no nest. */
  lemma HoleNests(name: string, rest: string)
    requires BraceFree(name)
    ensures Nests(Hole(name) + rest) == Nests(rest)
  {
    hide Simultaneous, Closing;
    HoleParts(name, rest);
    assert (name + "}") + rest == name + ("}" + rest);
    PlainTail(name, "}" + rest, false);
    PlainStart(name + "}", rest, map[]);
  }

  lemma Regroup(name: string, rest: string)
    ensures "{" + ((name + "}") + rest) == Hole(name) + rest
  {
  }

  /** Reading on at an opening brace that starts no placeholder. */
  lemma OpenStart(rest: string, values: map<string, string>)
    requires OpensFirst(rest) && forall name | name in values :: BraceFree(name)
    ensures Simultaneous("{" + rest, values) == "{" + Simultaneous(rest, values)
    ensures !NestTail("{" + rest, true) && !NestTail("{" + rest, false) && OpensFirst("{" + rest)
    ensures Nests("{" + rest) <==> NestTail(rest, false) || Nests(rest)
  {
    var text, j := "{" + rest, Closing(rest);
    ClosingAfter("{", rest);
    assert text[1..] == rest && text[1..j + 1] == rest[..j];
    assert text[..j + 1][0] == '{';
  }

  /** Any text is empty, or starts with a character that opens nothing, with a placeholder, or
      with a brace that starts none. */
  lemma Cases(text: string) returns (start: string, name: string, rest: string)
    requires text != ""
    ensures text == start + rest && |rest| < |text|
    ensures (text[0] != '{' && start == [text[0]]) ||
            (start == "{" && OpensFirst(rest)) ||
            (BraceFree(name) && start == Hole(name))
  {
    var j := Closing(text);
    start, name, rest := [text[0]], "", text[1..];
    if text[0] == '{' {
      ClosingAfter("{", rest);
      assert "{" + rest == text;
      if !OpensFirst(rest) {
        name, rest := text[1..j], text[j + 1..];
        start := Hole(name);
        assert forall i | 1 <= i < j :: text[..j][i] == text[i];
        assert name == text[1..][..j - 1];
      }
    }
  }

  // One replacement

  lemma {:induction false} NothingToReplace(text: string, name: string, value: string)
    requires '}' !in text
    ensures Replace(text, Hole(name), value) == text
    decreases |text|
  {
    var pattern := Hole(name);
    if |text| >= |pattern| {
      assert pattern[|pattern| - 1] == '}';
      assert text[..|pattern|][|pattern| - 1] == text[|pattern| - 1];
      NothingToReplace(text[1..], name, value);
    }
  }

  /** `replace` of a placeholder is the simultaneous replacement of it alone, in any text. */
  lemma {:induction false} ReplaceIsSimultaneous(text: string, name: string, value: string)
    requires BraceFree(name)
    ensures Replace(text, Hole(name), value) == Simultaneous(text, map[name := value])
    decreases |text|
  {
    var pattern := Hole(name);
    var n := |pattern|;
    if text != "" {
      StartsWithHole(text, name);
    }
    if |text| >= n && text[..n] == pattern {
      assert text == pattern + text[n..];
      HoleStart(name, text[n..], map[name := value]);
      ReplaceIsSimultaneous(text[n..], name, value);
    } else if text != "" {
      ReplaceIsSimultaneous(text[1..], name, value);
      if |text| < n {
        assert [text[0]] + text[1..] == text;
      }
    }
  }

  lemma StartsWithHole(text: string, name: string)
    requires BraceFree(name) && text != ""
    ensures var j, n := Closing(text), |name| + 2;
      |text| >= n && text[..n] == Hole(name) <==> text[0] == '{' && 0 < j < |text| && text[1..j] == name
  {
    hide Closing;
    var j, n := Closing(text), |name| + 2;
    if |text| >= n && text[..n] == Hole(name) {
      HoleParts(name, text[n..]);
      assert text == Hole(name) + text[n..];
    }
    if text[0] == '{' && 0 < j < |text| && text[1..j] == name {
      ClosedHole(text, j, name);
    }
  }

  lemma ClosedHole(text: string, j: nat, name: string)
    requires 0 < j < |text| && text[0] == '{' && text[j] == '}' && text[1..j] == name
    ensures text[..|name| + 2] == Hole(name)
  {
  }

  // One replacement after others

  /** Whether a placeholder was seen matters only if a closing brace comes first. */
  lemma {:induction false} SeenMattersNot(text: string)
    requires OpensFirst(text)
    ensures NestTail(text, true) == NestTail(text, false)
    decreases |text|
  {
    if text != "" && text[0] != '{' && text[0] != '}' {
      ClosingAfter([text[0]], text[1..]);
      assert [text[0]] + text[1..] == text;
      assert text[..Closing(text)] == [text[0]] + text[1..][..Closing(text[1..])];
      SeenMattersNot(text[1..]);
    }
  }

  lemma OpensAfter(start: string, rest: string)
    requires BraceFree(start) && OpensFirst(rest)
    ensures OpensFirst(start + rest)
  {
    ClosingAfter(start, rest);
    assert (start + rest)[..|start| + Closing(rest)] == start + rest[..Closing(rest)];
  }

  lemma OpensAtOnce(text: string)
    requires text != "" && text[0] == '{'
    ensures OpensFirst(text)
  {
    assert text[..Closing(text)] != "" ==> text[..Closing(text)][0] == '{';
  }

  /** Replacements do not close what plain text and placeholders left open. */
  lemma {:induction false} StaysOpen(text: string, values: map<string, string>)
    requires BraceFreeMap(values) && !NestTail(text, true)
    ensures OpensFirst(Simultaneous(text, values))
    decreases |text|
  {
    if text != "" {
      hide Simultaneous, NestTail, Closing, OpensFirst;
      var start, name, rest := Cases(text);
      if text[0] != '{' {
        NotClosing(text);
        PlainTail(start, rest, true);
        PlainStart(start, rest, values);
        StaysOpen(rest, values);
        OpensAfter(start, Simultaneous(rest, values));
      } else if start == "{" {
        OpenStart(rest, values);
        OpensAtOnce("{" + Simultaneous(rest, values));
      } else {
        HoleStart(name, rest, values);
        if name in values {
          StaysOpen(rest, values);
          OpensAfter(values[name], Simultaneous(rest, values));
        } else {
          OpensAtOnce(Hole(name) + Simultaneous(rest, values));
        }
      }
    }
  }

  lemma NotClosing(text: string)
    requires text != "" && !NestTail(text, true)
    ensures text[0] != '}'
  {
  }

  /** Replacing one more placeholder afterwards is replacing it together with the others, in a
      text without nests. */
  lemma {:induction false} OneMore(text: string, values: map<string, string>, name: string, value: string)
    requires !Nests(text) && BraceFreeMap(values) && BraceFree(name) && name !in values
    ensures Simultaneous(Simultaneous(text, values), map[name := value]) == Simultaneous(text, values[name := value])
    decreases |text|
  {
    var one, more := map[name := value], values[name := value];
    if text != "" {
      hide Simultaneous, NestTail, Nests, Closing, OpensFirst;
      var start, here, rest := Cases(text);
      var after := Simultaneous(rest, values);
      if text[0] != '{' {
        PlainStart(start, rest, values);
        PlainStart(start, after, one);
        PlainStart(start, rest, more);
      } else if start == "{" {
        OpenStart(rest, values);
        OpenStart(rest, more);
        SeenMattersNot(rest);
        StaysOpen(rest, values);
        OpenStart(after, one);
      } else {
        HoleNests(here, rest);
        HoleStart(here, rest, values);
        HoleStart(here, rest, more);
        if here in values {
          PlainStart(values[here], after, one);
        } else {
          HoleStart(here, after, one);
        }
      }
      OneMore(rest, values, name, value);
    }
  }

  /** Replacements keep plain text and placeholders unclosed. */
  lemma {:induction false} TailStaysFlat(text: string, values: map<string, string>)
    requires BraceFreeMap(values) && !NestTail(text, true) && !Nests(text)
    ensures !NestTail(Simultaneous(text, values), true)
    decreases |text|
  {
    if text != "" {
      hide Simultaneous, NestTail, Nests, Closing, OpensFirst;
      var start, name, rest := Cases(text);
      var after := Simultaneous(rest, values);
      if text[0] != '{' {
        NotClosing(text);
        PlainStart(start, rest, values);
        PlainTail(start, rest, true);
        TailStaysFlat(rest, values);
        PlainTail(start, after, true);
      } else if start == "{" {
        OpenStart(rest, values);
        SeenMattersNot(rest);
        StaysOpen(rest, values);
        OpenStart(after, map[]);
      } else {
        HoleNests(name, rest);
        HoleStart(name, rest, values);
        TailStaysFlat(rest, values);
        if name in values {
          PlainTail(values[name], after, true);
        } else {
          HoleStart(name, after, values);
        }
      }
    } else {
      assert Simultaneous(text, values) == "";
    }
  }

  /** Replacements make no nest. */
  lemma {:induction false} StaysFlat(text: string, values: map<string, string>)
    requires BraceFreeMap(values) && !Nests(text)
    ensures !Nests(Simultaneous(text, values))
    decreases |text|
  {
    if text != "" {
      hide Simultaneous, NestTail, Nests, Closing, OpensFirst;
      var start, name, rest := Cases(text);
      var after := Simultaneous(rest, values);
      if text[0] != '{' {
        PlainStart(start, rest, values);
        StaysFlat(rest, values);
        PlainStart(start, after, values);
      } else if start == "{" {
        OpenStart(rest, values);
        SeenMattersNot(rest);
        StaysOpen(rest, values);
        TailStaysFlat(rest, values);
        SeenMattersNot(after);
        StaysFlat(rest, values);
        OpenStart(after, map[]);
      } else {
        HoleNests(name, rest);
        HoleStart(name, rest, values);
        StaysFlat(rest, values);
        if name in values {
          PlainStart(values[name], after, values);
        } else {
          HoleNests(name, after);
        }
      }
    } else {
      assert Simultaneous(text, values) == "";
    }
  }
}
