/** Replacing the entries of a string map in a text one after another
    (benchmarking/frameworks/framework_base.py): when the order does not matter. */
module ReplaceOrder {
  import opened TextReplace

  datatype Entry = Entry(name: string, value: string)

  /** The first n entries replaced one after another. */
  function InOrder(text: string, entries: seq<Entry>, n: nat): string
    requires n <= |entries|
  {
    if n == 0 then text else Replace(InOrder(text, entries, n - 1), Hole(entries[n - 1].name), entries[n - 1].value)
  }

  /** The map with the first n entries. */
  function MapOf(entries: seq<Entry>, n: nat): map<string, string>
    requires n <= |entries|
  {
    if n == 0 then map[] else MapOf(entries, n - 1)[entries[n - 1].name := entries[n - 1].value]
  }

  /** The names of the first n entries differ. */
  predicate Distinct(entries: seq<Entry>, n: nat)
    requires n <= |entries|
  {
    n == 0 || (entries[n - 1].name !in MapOf(entries, n - 1) && Distinct(entries, n - 1))
  }

  /** The entries of a dictionary in some order. */
  predicate Enumerates(entries: seq<Entry>, values: map<string, string>) {
    Distinct(entries, |entries|) && MapOf(entries, |entries|) == values
  }

  lemma BraceFreeStart(entries: seq<Entry>, n: nat)
    requires 0 < n <= |entries| && Distinct(entries, n) && BraceFreeMap(MapOf(entries, n))
    ensures BraceFreeMap(MapOf(entries, n - 1)) && BraceFree(entries[n - 1].name) && BraceFree(entries[n - 1].value)
  {
    var before, all := MapOf(entries, n - 1), MapOf(entries, n);
    assert entries[n - 1].name in all && forall name | name in before :: name in all && all[name] == before[name];
  }

  lemma {:induction false} NothingSubstituted(text: string)
    ensures Simultaneous(text, map[]) == text
    decreases |text|
  {
    if text != "" {
      NothingSubstituted(text[1..]);
    }
  }

  // Where no braces nest

  lemma {:induction false} InOrderIsSimultaneous(text: string, entries: seq<Entry>, n: nat)
    requires n <= |entries| && Distinct(entries, n) && !Nests(text) && BraceFreeMap(MapOf(entries, n))
    ensures InOrder(text, entries, n) == Simultaneous(text, MapOf(entries, n))
  {
    hide Nests, Simultaneous, BraceFreeMap, BraceFree;
    if n == 0 {
      NothingSubstituted(text);
    } else {
      var before, entry := MapOf(entries, n - 1), entries[n - 1];
      BraceFreeStart(entries, n);
      InOrderIsSimultaneous(text, entries, n - 1);
      OneMore(text, before, entry.name, entry.value);
      ReplaceIsSimultaneous(Simultaneous(text, before), entry.name, entry.value);
    }
  }

  /** All orders of all maps without braces give the same text. */
  ghost predicate OrderFree(text: string) {
    forall values, entries, other |
        BraceFreeMap(values) && Enumerates(entries, values) && Enumerates(other, values) ::
      InOrder(text, entries, |entries|) == InOrder(text, other, |other|)
  }

  // Where they do

  /** The names of the placeholders from a brace to the brace that closes it, and how much plain
      text there is. */
  function TailNames(text: string): set<string>
    decreases |text|
  {
    if text == "" || text[0] == '}' then {}
    else if text[0] != '{' then TailNames(text[1..])
    else
      var j := Closing(text);
      if 0 < j < |text| then {text[1..j]} + TailNames(text[j + 1..]) else {}
  }

  function TailLength(text: string): nat
    decreases |text|
  {
    if text == "" || text[0] == '}' then 0
    else if text[0] != '{' then 1 + TailLength(text[1..])
    else
      var j := Closing(text);
      if 0 < j < |text| then TailLength(text[j + 1..]) else 0
  }

  lemma {:induction false} PlainTailParts(start: string, rest: string)
    requires BraceFree(start)
    ensures TailNames(start + rest) == TailNames(rest) && TailLength(start + rest) == |start| + TailLength(rest)
    decreases |start|
  {
    if start == "" {
      assert start + rest == rest;
    } else {
      assert start == [start[0]] + start[1..];
      assert (start + rest)[1..] == start[1..] + rest;
      PlainTailParts(start[1..], rest);
    }
  }

  lemma HoleTailParts(name: string, rest: string)
    requires BraceFree(name)
    ensures TailNames(Hole(name) + rest) == {name} + TailNames(rest)
    ensures TailLength(Hole(name) + rest) == TailLength(rest)
  {
    HoleParts(name, rest);
  }

  /** A tail starts with a closing brace, a plain character, or a placeholder. */
  lemma TailCases(text: string) returns (start: string, name: string, rest: string)
    requires NestTail(text, true)
    ensures text != "" && text == start + rest && |rest| < |text|
    ensures (text[0] == '}' && start == "}") ||
            (BraceFree(start) && start == [text[0]] && NestTail(rest, true)) ||
            (BraceFree(name) && start == Hole(name) && NestTail(rest, true))
  {
    start, name, rest := Cases(text);
    if start == "{" {
      OpenTail(text, rest);
    } else if text[0] == '{' {
      HoleStart(name, rest, map[]);
    } else if text[0] != '}' {
      PlainTail(start, rest, true);
    }
  }

  lemma OpenTail(text: string, rest: string)
    requires text == "{" + rest && OpensFirst(rest)
    ensures !NestTail(text, true)
  {
    OpenStart(rest, map[]);
  }

  lemma {:induction false} NamesFit(text: string, name: string)
    requires NestTail(text, true) && name in TailNames(text)
    ensures BraceFree(name) && |name| < |text|
    decreases |text|
  {
    var start, here, rest := TailCases(text);
    if text[0] == '{' {
      HoleTailParts(here, rest);
      if name != here {
        NamesFit(rest, name);
      }
    } else {
      PlainTailParts(start, rest);
      NamesFit(rest, name);
    }
  }

  /** A replacement takes its placeholders out of the tail, and puts plain text in. */
  lemma {:induction false} FillTail(text: string, name: string, value: string)
    requires NestTail(text, true) && BraceFree(name) && BraceFree(value)
    ensures var after := Simultaneous(text, map[name := value]);
      NestTail(after, true) && TailNames(after) == TailNames(text) - {name} &&
      TailLength(after) >= TailLength(text) + if name in TailNames(text) then |value| else 0
    decreases |text|
  {
    hide Simultaneous, NestTail, TailNames, TailLength, Closing;
    var values := map[name := value];
    var start, here, rest := TailCases(text);
    var after := Simultaneous(rest, values);
    if start == "}" {
      PlainStart(start, rest, values);
      ClosedTail(rest);
      ClosedTail(after);
    } else if text[0] != '{' {
      PlainStart(start, rest, values);
      PlainTailParts(start, rest);
      FillTail(rest, name, value);
      PlainTailParts(start, after);
      PlainTail(start, after, true);
    } else {
      HoleStart(here, rest, values);
      HoleTailParts(here, rest);
      FillTail(rest, name, value);
      if here == name {
        PlainTailParts(value, after);
        PlainTail(value, after, true);
      } else {
        HoleTailParts(here, after);
        HoleStart(here, after, values);
      }
    }
  }

  lemma ClosedTail(rest: string)
    ensures NestTail("}" + rest, true) && TailNames("}" + rest) == {} && TailLength("}" + rest) == 0
  {
  }

  /** What a tail without placeholders has before its closing brace. */
  lemma {:induction false} PlainTailText(text: string) returns (inside: string, rest: string)
    requires NestTail(text, true) && TailNames(text) == {}
    ensures text == inside + "}" + rest && BraceFree(inside) && |inside| == TailLength(text)
    decreases |text|
  {
    var start, here, later := TailCases(text);
    if start == "}" {
      inside, rest := "", later;
      ClosedTail(later);
    } else if text[0] != '{' {
      PlainTailParts(start, later);
      inside, rest := PlainTailText(later);
      inside := start + inside;
    } else {
      HoleTailParts(here, later);
    }
  }

  lemma {:induction false} NamesOpen(text: string)
    requires NestTail(text, true) && TailNames(text) != {}
    ensures OpensFirst(text)
    decreases |text|
  {
    hide TailNames, OpensFirst, NestTail;
    var start, here, rest := TailCases(text);
    if start == "}" {
      ClosedTail(rest);
    } else if text[0] == '{' {
      OpensAtOnce(text);
    } else {
      PlainTailParts(start, rest);
      NamesOpen(rest);
      OpensAfter(start, rest);
    }
  }

  lemma {:induction false} SeenIsMore(text: string)
    requires NestTail(text, false)
    ensures NestTail(text, true) && TailNames(text) != {}
    decreases |text|
  {
    if text[0] != '{' {
      SeenIsMore(text[1..]);
    }
  }

  lemma {:induction false} FindNest(text: string) returns (before: string, tail: string)
    requires Nests(text)
    ensures text == before + "{" + tail && NestTail(tail, false)
    decreases |text|
  {
    if text[0] == '{' && NestTail(text[1..], false) {
      before, tail := "", text[1..];
    } else {
      before, tail := FindNest(text[1..]);
      before := [text[0]] + before;
    }
  }

  /** No placeholder reaches over an opening brace. */
  lemma ClosesBefore(before: string, text: string)
    requires before != "" && text != "" && text[0] == '{'
    requires 0 < Closing(before + text) < |before + text| && '{' !in (before + text)[1..Closing(before + text)]
    ensures Closing(before + text) < |before|
  {
    var all, j := before + text, Closing(before + text);
    assert all[|before|] == '{';
    assert forall k | 1 <= k < j :: all[k] in all[1..j];
  }

  /** One reading step before an opening brace stays before it. */
  lemma StepBefore(before: string, text: string, values: map<string, string>) returns (shown: string, rest: string)
    requires before != "" && text != "" && text[0] == '{' && forall name | name in values :: BraceFree(name)
    ensures |rest| < |before|
    ensures Simultaneous(before + text, values) == shown + Simultaneous(rest + text, values)
  {
    var all := before + text;
    var j := Closing(all);
    if all[0] == '{' && 0 < j < |all| && all[1..j] in values {
      ClosesBefore(before, text);
      shown, rest := values[all[1..j]], before[j + 1..];
      assert all[j + 1..] == rest + text;
    } else {
      shown, rest := [all[0]], before[1..];
      assert all[1..] == rest + text;
    }
  }

  /** What comes before an opening brace is replaced by itself. */
  lemma {:induction false} BeforeBrace(before: string, text: string, values: map<string, string>)
    returns (after: string)
    requires text != "" && text[0] == '{' && forall name | name in values :: BraceFree(name)
    ensures Simultaneous(before + text, values) == after + Simultaneous(text, values)
    decreases |before|
  {
    hide Simultaneous, BraceFree;
    if before == "" {
      assert before + text == text;
      after := "";
    } else {
      var shown, rest := StepBefore(before, text, values);
      var later := BeforeBrace(rest, text, values);
      after := shown + later;
    }
  }

  // Entries put in front and at the end

  lemma {:induction false} PutFirst(text: string, entry: Entry, entries: seq<Entry>, n: nat)
    requires n <= |entries| && Distinct(entries, n) && entry.name !in MapOf(entries, n)
    ensures InOrder(text, [entry] + entries, n + 1) ==
            InOrder(Replace(text, Hole(entry.name), entry.value), entries, n)
    ensures Distinct([entry] + entries, n + 1)
    ensures MapOf([entry] + entries, n + 1) == MapOf(entries, n)[entry.name := entry.value]
  {
    hide Replace, Hole;
    var all := [entry] + entries;
    assert all[n] == if n == 0 then entry else entries[n - 1];
    if n > 0 {
      PutFirst(text, entry, entries, n - 1);
    } else {
      assert MapOf(all, 0) == map[] && InOrder(text, all, 0) == text;
    }
  }

  lemma {:induction false} SameStart(text: string, entries: seq<Entry>, longer: seq<Entry>, n: nat)
    requires n <= |entries| && entries <= longer
    ensures InOrder(text, entries, n) == InOrder(text, longer, n)
    ensures MapOf(entries, n) == MapOf(longer, n) && Distinct(entries, n) == Distinct(longer, n)
  {
    if n > 0 {
      SameStart(text, entries, longer, n - 1);
    }
  }

  /** The entries give a value to names of the nest and make the text one with a long placeholder. */
  ghost predicate Fills(text: string, tail: string, value: string, entries: seq<Entry>, made: string, length: nat) {
    var n := |entries|;
    Distinct(entries, n) && InOrder(text, entries, n) == made &&
    (forall x | x in MapOf(entries, n) :: x in TailNames(tail) && MapOf(entries, n)[x] == value) &&
    length >= TailLength(tail) + if TailNames(tail) != {} then |value| else 0
  }

  lemma FillNone(text: string, tail: string, value: string)
    requires TailNames(tail) == {}
    ensures Fills(text, tail, value, [], text, TailLength(tail))
  {
  }

  lemma FillMore(text: string, tail: string, after: string, x: string, value: string, entries: seq<Entry>,
                 made: string, length: nat)
    requires Fills(Replace(text, Hole(x), value), after, value, entries, made, length)
    requires x in TailNames(tail) && TailNames(after) == TailNames(tail) - {x}
    requires TailLength(after) >= TailLength(tail) + |value|
    ensures Fills(text, tail, value, [Entry(x, value)] + entries, made, length)
  {
    hide TailNames, TailLength, Replace, Distinct, MapOf, InOrder, Hole;
    PutFirst(text, Entry(x, value), entries, |entries|);
  }

  lemma FilledText(before: string, tail: string) returns (name: string, right: string)
    requires NestTail(tail, true) && TailNames(tail) == {}
    ensures before + "{" + tail == before + Hole(name) + right && BraceFree(name) && |name| == TailLength(tail)
  {
    hide NestTail, TailNames, TailLength, BraceFree;
    name, right := PlainTailText(tail);
  }

  /** Replacing the placeholders of a nest by plain text, one after another, makes it a
      placeholder itself. */
  lemma {:induction false} FillNest(before: string, tail: string, value: string)
    returns (entries: seq<Entry>, left: string, name: string, right: string)
    requires NestTail(tail, true) && BraceFree(value)
    ensures Fills(before + "{" + tail, tail, value, entries, left + Hole(name) + right, |name|) && BraceFree(name)
    decreases |TailNames(tail)|
  {
    hide Fills, Simultaneous, NestTail, TailNames, TailLength, Replace, BraceFree, Hole;
    if TailNames(tail) == {} {
      left := before;
      name, right := FilledText(before, tail);
      entries := [];
      FillNone(before + "{" + tail, tail, value);
    } else {
      var x :| x in TailNames(tail);
      NamesFit(tail, x);
      var here := FillOne(before, tail, x, value);
      var after := Simultaneous(tail, map[x := value]);
      FillTail(tail, x, value);
      entries, left, name, right := FillNest(here, after, value);
      FillMore(before + "{" + tail, tail, after, x, value, entries, left + Hole(name) + right, |name|);
      entries := [Entry(x, value)] + entries;
    }
  }

  lemma FillOne(before: string, tail: string, x: string, value: string) returns (here: string)
    requires NestTail(tail, true) && TailNames(tail) != {} && BraceFree(x)
    ensures Replace(before + "{" + tail, Hole(x), value) == here + "{" + Simultaneous(tail, map[x := value])
  {
    hide Simultaneous, NestTail, TailNames, Replace, OpensFirst, Hole;
    ReplaceIsSimultaneous(before + "{" + tail, x, value);
    NamesOpen(tail);
    OpenStart(tail, map[x := value]);
    here := BeforeBrace(before, "{" + tail, map[x := value]);
    assert before + "{" + tail == before + ("{" + tail);
  }

  lemma {:induction false} Shrinks(left: string, name: string, right: string)
    requires BraceFree(name)
    ensures |Replace(left + Hole(name) + right, Hole(name), "")| < |left + Hole(name) + right|
    decreases |left|
  {
    var text, pattern := left + Hole(name) + right, Hole(name);
    assert left == "" ==> text[..|pattern|] == pattern;
    if text[..|pattern|] == pattern {
      NoLonger(text[|pattern|..], pattern);
    } else {
      assert text[1..] == left[1..] + Hole(name) + right;
      Shrinks(left[1..], name, right);
    }
  }

  lemma {:induction false} NoLonger(text: string, pattern: string)
    requires pattern != ""
    ensures |Replace(text, pattern, "")| <= |text|
    decreases |text|
  {
    if |text| >= |pattern| {
      NoLonger(if text[..|pattern|] == pattern then text[|pattern|..] else text[1..], pattern);
    }
  }

  /** A plain text of a given length. */
  function Filler(length: nat): (text: string)
    ensures |text| == length && BraceFree(text)
  {
    seq(length, _ => 'g')
  }

  lemma TooShort(text: string, pattern: string)
    requires |text| < |pattern|
    ensures Replace(text, pattern, "") == text
  {
  }

  /** A name that the others make, replaced last and first. */
  lemma LastOrFirst(text: string, others: seq<Entry>, last: Entry, made: string)
    returns (values: map<string, string>, entries: seq<Entry>, other: seq<Entry>)
    requires Distinct(others, |others|) && last.name !in MapOf(others, |others|)
    requires InOrder(text, others, |others|) == made != Replace(made, Hole(last.name), last.value)
    requires Replace(text, Hole(last.name), last.value) == text
    ensures values == MapOf(others, |others|)[last.name := last.value]
    ensures Enumerates(entries, values) && Enumerates(other, values)
    ensures InOrder(text, entries, |entries|) != InOrder(text, other, |other|)
  {
    hide Replace, Hole;
    var n := |others|;
    entries, other := others + [last], [last] + others;
    SameStart(text, others, entries, n);
    PutFirst(text, last, others, n);
    values := MapOf(entries, n + 1);
  }

  /** Where braces nest, two orders of one map without braces give different texts: the name that
      the others make is replaced in one of them and left in the other. */
  lemma OrderMatters(text: string) returns (values: map<string, string>, entries: seq<Entry>, other: seq<Entry>)
    requires Nests(text)
    ensures BraceFreeMap(values) && Enumerates(entries, values) && Enumerates(other, values)
    ensures InOrder(text, entries, |entries|) != InOrder(text, other, |other|)
  {
    hide Nests, NestTail, TailNames, TailLength, Distinct, MapOf, InOrder, Enumerates, Replace, BraceFree;
    var before, tail := FindNest(text);
    SeenIsMore(tail);
    var value := Filler(|text| + 1);
    var others, left, name, right := FillNest(before, tail, value);
    var given := MapOf(others, |others|);
    forall x | x in given ensures BraceFree(x) && x != name && given[x] == value {
      NamesFit(tail, x);
    }
    hide Fills;
    Shrinks(left, name, right);
    TooShort(text, Hole(name));
    values, entries, other := LastOrFirst(text, others, Entry(name, ""), left + Hole(name) + right);
    PlainEmpty();
  }

  lemma PlainEmpty()
    ensures BraceFree("")
  {
  }

  /** The order of replacements does not matter, for any map without braces, exactly when no braces
      of the text enclose plain text and at least one placeholder. */
  lemma OrderFreeIff(text: string)
    ensures OrderFree(text) <==> !Nests(text)
  {
    hide Nests, InOrder, BraceFreeMap;
    if Nests(text) {
      var values, entries, other := OrderMatters(text);
    } else {
      forall values, entries, other |
          BraceFreeMap(values) && Enumerates(entries, values) && Enumerates(other, values)
        ensures InOrder(text, entries, |entries|) == InOrder(text, other, |other|)
      {
        InOrderIsSimultaneous(text, entries, |entries|);
        InOrderIsSimultaneous(text, other, |other|);
      }
    }
  }
}
