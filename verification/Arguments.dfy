/** Reading a command's arguments as pairs (getPairedArguments in
    benchmarking/platforms/platform_base.py) and printing them
    (benchmarking/platforms/ios/ios_platform.py). */
module Arguments {
  import opened Wrappers

  datatype Argument = Argument(name: string, value: string)

  predicate Dashed(text: string) {
    |text| >= 2 && text[0] == '-' && text[1] == '-'
  }

  function Dash(name: string): string {
    "--" + name
  }

  lemma DashedIff(text: string)
    ensures Dashed(text) <==> exists name :: text == "--" + name
  {
    if Dashed(text) {
      assert text == "--" + text[2..];
    }
  }

  /** The position of the first '=', or the length. */
  function FindEquals(text: string): (i: nat)
    ensures i <= |text| && (i < |text| ==> text[i] == '=')
    ensures forall k | 0 <= k < i :: text[k] != '='
    ensures i == |text| <==> '=' !in text
  {
    if text == "" then 0 else if text[0] == '=' then 0 else
      assert forall k | 0 < k < |text| :: text[k] == text[1..][k - 1];
      1 + FindEquals(text[1..])
  }

  /** `k, v = key.split("=")`, which raises unless there is exactly one '='. */
  function SplitEquals(key: string): Result<Argument> {
    var i := FindEquals(key);
    if i == |key| || '=' in key[i + 1..] then Raised else Ok(Argument(key[..i], key[i + 1..]))
  }

  /** The pairs of a command, put into a dictionary one after another. */
  function Parse(cmd: seq<string>, arguments: map<string, string>): Result<map<string, string>>
    decreases |cmd|
  {
    if cmd == [] then Ok(arguments)
    else if Dashed(cmd[0]) then
      var key := cmd[0][2..];
      if '=' in key then
        var split := SplitEquals(key);
        if split.Raised? then Raised else Parse(cmd[1..], arguments[split.value.name := split.value.value])
      else if |cmd| > 1 && !Dashed(cmd[1]) then Parse(cmd[2..], arguments[key := cmd[1]])
      else Parse(cmd[1..], arguments[key := "true"])
    else if cmd[0] == "{program}" then Parse(cmd[1..], arguments)
    else Raised
  }

  /** `getPairedArguments` */
  method GetPairedArguments(cmd: seq<string>) returns (r: Result<map<string, string>>)
    ensures r == Parse(cmd, map[])
  {
    hide SplitEquals;
    var arguments: map<string, string> := map[];
    var i := 0;
    while i < |cmd|
      invariant 0 <= i <= |cmd|
      invariant Parse(cmd, map[]) == Parse(cmd[i..], arguments)
    {
      var entry := cmd[i];
      assert cmd[i..][1..] == cmd[i + 1..];
      if Dashed(entry) {
        var key := entry[2..];
        if '=' in key {
          var split := SplitEquals(key);
          if split.Raised? {
            return Raised;
          }
          arguments := arguments[split.value.name := split.value.value];
        } else {
          var value := if i < |cmd| - 1 then cmd[i + 1] else "true";
          if Dashed(value) {
            value := "true";
          } else if i < |cmd| - 1 {
            assert cmd[i..][2..] == cmd[i + 2..];
            i := i + 1;
          }
          arguments := arguments[key := value];
        }
      } else if entry != "{program}" {
        return Raised;
      }
      i := i + 1;
    }
    r := Ok(arguments);
  }

  /** The arguments as ios_platform passes them on. */
  function Print(arguments: seq<Argument>): seq<string> {
    if arguments == [] then []
    else [Dash(arguments[0].name), arguments[0].value] + Print(arguments[1..])
  }

  // Commands one after another

  function Resume(r: Result<map<string, string>>, cmd: seq<string>): Result<map<string, string>> {
    if r.Ok? then Parse(cmd, r.value) else Raised
  }

  /** A command that starts with a dashed entry is read as if it stood alone. */
  lemma {:induction false} ParseConcat(a: seq<string>, b: seq<string>, arguments: map<string, string>)
    requires b == [] || Dashed(b[0])
    ensures Parse(a + b, arguments) == Resume(Parse(a, arguments), b)
    decreases |a|
  {
    if a == [] {
      assert a + b == b;
    } else {
      hide SplitEquals;
      var all := a + b;
      assert all[0] == a[0] && all[1..] == a[1..] + b;
      if Dashed(a[0]) {
        var key := a[0][2..];
        if '=' in key {
          var split := SplitEquals(key);
          if split.Ok? {
            ParseConcat(a[1..], b, arguments[split.value.name := split.value.value]);
          }
        } else if |a| > 1 && !Dashed(a[1]) {
          assert all[2..] == a[2..] + b;
          ParseConcat(a[2..], b, arguments[key := a[1]]);
        } else {
          ParseConcat(a[1..], b, arguments[key := "true"]);
        }
      } else if a[0] == "{program}" {
        ParseConcat(a[1..], b, arguments);
      }
    }
  }

  /** A pair added at the end wins over all that came before. */
  lemma LastWins(cmd: seq<string>, name: string, value: string)
    requires '=' !in name && !Dashed(value)
    ensures Parse(cmd + [Dash(name), value], map[]) ==
      match Parse(cmd, map[])
      case Ok(m) => Ok(m[name := value])
      case Raised => Raised
  {
    ParseConcat(cmd, [Dash(name), value], map[]);
    if Parse(cmd, map[]).Ok? {
      ParsePair(name, value, [], Parse(cmd, map[]).value);
      assert [Dash(name), value] + [] == [Dash(name), value];
    }
  }

  lemma ParsePair(name: string, value: string, rest: seq<string>, arguments: map<string, string>)
    requires '=' !in name && !Dashed(value)
    ensures Parse([Dash(name), value] + rest, arguments) == Parse(rest, arguments[name := value])
  {
    var cmd := [Dash(name), value] + rest;
    assert Dash(name)[2..] == name && cmd[2..] == rest;
  }

  /** A flag at the end, or before another dashed entry, is "true". */
  lemma FlagIsTrue(cmd: seq<string>, name: string, next: seq<string>)
    requires '=' !in name && (next == [] || Dashed(next[0]))
    ensures Parse(cmd + [Dash(name)] + next, map[]) ==
      match Parse(cmd, map[])
      case Ok(m) => Parse(next, m[name := "true"])
      case Raised => Raised
  {
    assert cmd + [Dash(name)] + next == cmd + ([Dash(name)] + next);
    ParseConcat(cmd, [Dash(name)] + next, map[]);
    assert Dash(name)[2..] == name && ([Dash(name)] + next)[1..] == next;
  }

  lemma {:induction false} FindEqualsIs(text: string, i: nat)
    requires i <= |text| && '=' !in text[..i] && (i < |text| ==> text[i] == '=')
    ensures FindEquals(text) == i
  {
    if i > 0 {
      assert text[..i][0] == text[0] && text[..i][1..] == text[1..][..i - 1];
      FindEqualsIs(text[1..], i - 1);
    }
  }

  /** An entry "--name=value" is that pair, and one with a further '=' raises. */
  lemma EqualsGives(name: string, value: string, rest: seq<string>, m: map<string, string>)
    requires '=' !in name
    ensures Parse([Dash(name + "=" + value)] + rest, m) ==
      if '=' in value then Raised else Parse(rest, m[name := value])
  {
    var key := name + "=" + value;
    var cmd := [Dash(key)] + rest;
    assert Dash(key)[2..] == key && cmd[1..] == rest;
    assert key[..|name|] == name && key[|name|] == '=' && key[|name| + 1..] == value;
    FindEqualsIs(key, |name|);
  }

  /** The program's place is skipped where an entry is expected, and any other bare entry raises. */
  lemma BareEntry(entry: string, rest: seq<string>, m: map<string, string>)
    requires !Dashed(entry)
    ensures Parse([entry] + rest, m) == if entry == "{program}" then Parse(rest, m) else Raised
  {
    assert ([entry] + rest)[1..] == rest;
  }

  // Round trips

  /** The names are distinct. */
  predicate Distinct(arguments: seq<Argument>) {
    forall i, j | 0 <= i < j < |arguments| :: arguments[i].name != arguments[j].name
  }

  /** The dictionary with the arguments added to it in order. */
  function Added(arguments: seq<Argument>, m: map<string, string>): map<string, string> {
    if arguments == [] then m else Added(arguments[1..], m[arguments[0].name := arguments[0].value])
  }

  predicate Readable(argument: Argument) {
    '=' !in argument.name && !Dashed(argument.value)
  }

  lemma {:induction false} PrintedIsRead(arguments: seq<Argument>, m: map<string, string>)
    requires forall i | 0 <= i < |arguments| :: Readable(arguments[i])
    ensures Parse(Print(arguments), m) == Ok(Added(arguments, m))
    decreases |arguments|
  {
    if arguments != [] {
      var first := arguments[0];
      assert Readable(first);
      ParsePair(first.name, first.value, Print(arguments[1..]), m);
      PrintedIsRead(arguments[1..], m[first.name := first.value]);
    }
  }

  /** No name that is read has a '='. */
  lemma {:induction false} NamesHaveNoEquals(cmd: seq<string>, m: map<string, string>)
    requires forall name | name in m :: '=' !in name
    ensures Parse(cmd, m).Ok? ==> forall name | name in Parse(cmd, m).value :: '=' !in name
    decreases |cmd|
  {
    if cmd != [] && Dashed(cmd[0]) {
      var key := cmd[0][2..];
      if '=' in key {
        var split := SplitEquals(key);
        if split.Ok? {
          NamesHaveNoEquals(cmd[1..], m[split.value.name := split.value.value]);
        }
      } else if |cmd| > 1 && !Dashed(cmd[1]) {
        NamesHaveNoEquals(cmd[2..], m[key := cmd[1]]);
      } else {
        NamesHaveNoEquals(cmd[1..], m[key := "true"]);
      }
    } else if cmd != [] && cmd[0] == "{program}" {
      NamesHaveNoEquals(cmd[1..], m);
    }
  }

  /** The value of an entry "--name=value". */
  predicate GivesValue(entry: string, value: string) {
    Dashed(entry) && SplitEquals(entry[2..]).Ok? && SplitEquals(entry[2..]).value.value == value
  }

  lemma GivenIsShorter(entry: string, value: string)
    requires GivesValue(entry, value)
    ensures |entry| > |value| && Dashed(entry) && '=' in entry[2..]
  {
  }

  /** One entry is read, with its value; a new dashed value is one that the entry gives. */
  lemma ParseStep(cmd: seq<string>, m: map<string, string>) returns (taken: nat, next: map<string, string>)
    requires cmd != [] && Parse(cmd, m).Ok?
    ensures 0 < taken <= |cmd| && Parse(cmd, m) == Parse(cmd[taken..], next)
    ensures forall name | name in next ::
      (name in m && m[name] == next[name]) || !Dashed(next[name]) || GivesValue(cmd[0], next[name])
  {
    taken, next := 1, m;
    if Dashed(cmd[0]) {
      var key := cmd[0][2..];
      if '=' in key {
        var split := SplitEquals(key).value;
        next := m[split.name := split.value];
      } else if |cmd| > 1 && !Dashed(cmd[1]) {
        taken, next := 2, m[key := cmd[1]];
      } else {
        next := m[key := "true"];
      }
    }
    hide SplitEquals;
  }

  /** A dashed value that is read comes from an entry "--name=value". */
  lemma {:induction false} DashedIsGiven(cmd: seq<string>, m: map<string, string>, name: string)
    requires Parse(cmd, m).Ok? && name in Parse(cmd, m).value && Dashed(Parse(cmd, m).value[name])
    ensures (name in m && m[name] == Parse(cmd, m).value[name]) ||
      exists i :: 0 <= i < |cmd| && GivesValue(cmd[i], Parse(cmd, m).value[name])
    decreases |cmd|
  {
    if cmd == [] {
      assert Parse(cmd, m) == Ok(m);
    } else {
      hide Parse, Dashed, GivesValue;
      var taken, next := ParseStep(cmd, m);
      var value := Parse(cmd, m).value[name];
      DashedIsGiven(cmd[taken..], next, name);
      if i :| 0 <= i < |cmd[taken..]| && GivesValue(cmd[taken..][i], value) {
        assert cmd[i + taken] == cmd[taken..][i];
      }
    }
  }

  /** The dictionary of arguments with distinct names. */
  function Dictionary(arguments: seq<Argument>): map<string, string> {
    Added(arguments, map[])
  }

  lemma {:induction false} AddedHas(arguments: seq<Argument>, m: map<string, string>)
    requires Distinct(arguments)
    ensures forall i | 0 <= i < |arguments| ::
      arguments[i].name in Added(arguments, m) && Added(arguments, m)[arguments[i].name] == arguments[i].value
    ensures forall name | name in m && (forall i | 0 <= i < |arguments| :: arguments[i].name != name) ::
      name in Added(arguments, m) && Added(arguments, m)[name] == m[name]
    decreases |arguments|
  {
    if arguments != [] {
      var rest, next := arguments[1..], m[arguments[0].name := arguments[0].value];
      AddedHas(rest, next);
      forall i | 0 <= i < |arguments|
        ensures arguments[i].name in Added(arguments, m) && Added(arguments, m)[arguments[i].name] == arguments[i].value
      {
        if i > 0 {
          assert arguments[i] == rest[i - 1];
        }
      }
    }
  }

  lemma {:induction false} PrintedPair(arguments: seq<Argument>, k: nat)
    ensures |Print(arguments)| == 2 * |arguments|
    ensures k < |arguments| ==> Print(arguments)[2 * k] == Dash(arguments[k].name)
    ensures k < |arguments| ==> Print(arguments)[2 * k + 1] == arguments[k].value
    decreases |arguments|
  {
    hide Dash;
    if arguments != [] {
      var rest := arguments[1..];
      PrintedPair(rest, if k == 0 then 0 else k - 1);
      var first := [Dash(arguments[0].name), arguments[0].value];
      assert Print(arguments) == first + Print(rest);
      hide Print;
      if 0 < k < |arguments| {
        assert rest[k - 1] == arguments[k];
        assert (first + Print(rest))[2 * k] == Print(rest)[2 * (k - 1)];
        assert (first + Print(rest))[2 * k + 1] == Print(rest)[2 * (k - 1) + 1];
      }
    }
  }

  lemma PrintedEntry(arguments: seq<Argument>, j: nat)
    requires j < |Print(arguments)|
    ensures j / 2 < |arguments|
    ensures Print(arguments)[j] == if j % 2 == 0 then Dash(arguments[j / 2].name) else arguments[j / 2].value
  {
    hide Print, Dash;
    PrintedPair(arguments, j / 2);
  }

  lemma {:induction false} LongestDashed(arguments: seq<Argument>, n: nat) returns (i: nat)
    requires n <= |arguments| && exists k :: 0 <= k < n && Dashed(arguments[k].value)
    ensures i < n && Dashed(arguments[i].value)
    ensures forall k | 0 <= k < n && Dashed(arguments[k].value) :: |arguments[k].value| <= |arguments[i].value|
  {
    hide Dashed;
    i := n - 1;
    if exists k :: 0 <= k < n - 1 && Dashed(arguments[k].value) {
      var before := LongestDashed(arguments, n - 1);
      if !Dashed(arguments[i].value) || |arguments[i].value| < |arguments[before].value| {
        i := before;
      }
    }
  }

  lemma NotReadBack(arguments: seq<Argument>)
    requires Distinct(arguments) && exists k :: 0 <= k < |arguments| && Dashed(arguments[k].value)
    requires forall i | 0 <= i < |arguments| :: '=' !in arguments[i].name
    ensures Parse(Print(arguments), map[]) != Ok(Dictionary(arguments))
  {
    hide Dashed, SplitEquals, Parse, Print, GivesValue, Added;
    var cmd := Print(arguments);
    AddedHas(arguments, map[]);
    if Parse(cmd, map[]) == Ok(Dictionary(arguments)) {
      var i := LongestDashed(arguments, |arguments|);
      DashedIsGiven(cmd, map[], arguments[i].name);
      var j :| 0 <= j < |cmd| && GivesValue(cmd[j], arguments[i].value);
      NothingGives(arguments, i, j);
    }
  }

  /** No printed entry gives the longest dashed value: a name has no '=', and no value is longer. */
  lemma NothingGives(arguments: seq<Argument>, i: nat, j: nat)
    requires i < |arguments| && Dashed(arguments[i].value) && j < |Print(arguments)|
    requires forall k | 0 <= k < |arguments| :: '=' !in arguments[k].name
    requires forall k | 0 <= k < |arguments| && Dashed(arguments[k].value) ::
      |arguments[k].value| <= |arguments[i].value|
    ensures !GivesValue(Print(arguments)[j], arguments[i].value)
  {
    hide Dashed, SplitEquals, Print, GivesValue;
    PrintedEntry(arguments, j);
    var entry, value := Print(arguments)[j], arguments[i].value;
    if GivesValue(entry, value) {
      GivenIsShorter(entry, value);
      if j % 2 == 0 {
        DashedName(arguments[j / 2].name);
      }
    }
  }

  lemma DashedName(name: string)
    ensures Dash(name)[2..] == name
  {
  }

  /** Parsing the printed form of a dictionary gives it back exactly when no name has a '=' and
      no value starts with "--". */
  lemma RoundTripIff(arguments: seq<Argument>)
    requires Distinct(arguments)
    ensures Parse(Print(arguments), map[]) == Ok(Dictionary(arguments)) <==>
      forall i | 0 <= i < |arguments| :: Readable(arguments[i])
  {
    AddedHas(arguments, map[]);
    NamesHaveNoEquals(Print(arguments), map[]);
    if forall i | 0 <= i < |arguments| :: Readable(arguments[i]) {
      PrintedIsRead(arguments, map[]);
    } else if forall i | 0 <= i < |arguments| :: '=' !in arguments[i].name {
      NotReadBack(arguments);
    }
  }

  /** What an accepted command is read as is read back from its printed form, in whatever order,
      when no entry has the form "--name=--value". */
  lemma NormalForm(cmd: seq<string>, arguments: seq<Argument>)
    requires Distinct(arguments) && Parse(cmd, map[]) == Ok(Dictionary(arguments))
    requires forall i, value | 0 <= i < |cmd| && GivesValue(cmd[i], value) :: !Dashed(value)
    ensures Parse(Print(arguments), map[]) == Ok(Dictionary(arguments))
  {
    hide Dashed, SplitEquals;
    AddedHas(arguments, map[]);
    NamesHaveNoEquals(cmd, map[]);
    forall i | 0 <= i < |arguments| ensures Readable(arguments[i]) {
      if Dashed(arguments[i].value) {
        DashedIsGiven(cmd, map[], arguments[i].name);
      }
    }
    RoundTripIff(arguments);
  }
}
