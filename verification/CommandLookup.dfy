/** How a placeholder's name is resolved while a benchmark command is composed
    (benchmarking/frameworks/framework_base.py). */
module CommandLookup {
  import opened Json

  /** What looking a name up yields: nothing, a text, or an exception. */
  datatype Found = Missing | Text(text: string) | Raised

  /** Where a walk along dotted fields ends. */
  datatype Walked = Absent | Reached(entry: Json) | Crashed

  /** The three places a name is looked up in, with the two file tables. `show` is
      Python's `str` on values that are not strings. */
  datatype Env = Env(test: Json, files: map<string, Json>,
                     model: Json, modelFiles: map<string, Json>,
                     programs: Json, show: Json -> string)

  function Show(env: Env, value: Json): string {
    if value.Str? then value.text else env.show(value)
  }

  predicate OccursAt(text: string, part: string, i: int) {
    0 <= i <= |text| - |part| && text[i..i + |part|] == part
  }

  /** Python's `field in entry`: substring, membership or key test; a number raises. */
  datatype Membership = Yes | No | Unsupported

  function Has(entry: Json, field: string): Membership {
    match entry
    case Dict(m) => if field in m then Yes else No
    case Str(t) => if exists i | 0 <= i <= |t| :: OccursAt(t, field, i) then Yes else No
    case List(xs) => if Str(field) in xs then Yes else No
    case Scalar(_) => Unsupported
  }

  function Walk(entry: Json, fields: seq<string>): Walked {
    if fields == [] then Reached(entry)
    else match Has(entry, fields[0])
      case No => Absent
      case Unsupported => Crashed
      case Yes => if entry.Dict? then Walk(entry.fields[fields[0]], fields[1..]) else Crashed
  }

  function DotIndex(s: string): (i: nat)
    ensures i <= |s|
    ensures i < |s| ==> s[i] == '.'
  {
    if s == "" || s[0] == '.' then 0 else 1 + DotIndex(s[1..])
  }

  /** `match.split(".")`. */
  function Split(s: string): (fields: seq<string>)
    ensures fields != []
    decreases |s|
  {
    var i := DotIndex(s);
    if i == |s| then [s] else [s[..i]] + Split(s[i + 1..])
  }

  function Join(fields: seq<string>): string
    requires fields != []
  {
    if |fields| == 1 then fields[0] else fields[0] + "." + Join(fields[1..])
  }

  lemma JoinOne(field: string)
    ensures Join([field]) == field
  {
  }

  lemma JoinCons(first: string, rest: seq<string>)
    requires rest != []
    ensures Join([first] + rest) == first + "." + Join(rest)
  {
    assert ([first] + rest)[1..] == rest;
  }

  lemma {:induction false} JoinSplit(s: string)
    ensures Join(Split(s)) == s
    decreases |s|
  {
    hide DotIndex, Join;
    var i := DotIndex(s);
    if i == |s| {
      JoinOne(s);
    } else {
      JoinSplit(s[i + 1..]);
      JoinCons(s[..i], Split(s[i + 1..]));
    }
  }

  /** The text of the entry a walk reached: a file's path if the entry describes a file. */
  function EntryText(env: Env, entry: Json, field: string, files: map<string, Json>): Found {
    if entry.Scalar? then Raised
    else if Has(entry, "location") == Yes && field in files then Text(Show(env, files[field]))
    else if entry.Str? then Text(entry.text)
    else Raised
  }

  function Lookup(env: Env, root: Json, name: string, files: map<string, Json>): Found {
    if !root.Dict? then Missing
    else if name in root.fields then Text(Show(env, root.fields[name]))
    else
      var fields := Split(name);
      match Walk(root, fields)
      case Absent => Missing
      case Crashed => Raised
      case Reached(entry) => EntryText(env, entry, fields[|fields| - 1], files)
  }

  /** The test shadows the model, which shadows the programs; an empty text shadows too. */
  function Resolve(env: Env, name: string): Found {
    var inTest := Lookup(env, env.test, name, env.files);
    if !inTest.Missing? then inTest
    else
      var inModel := Lookup(env, env.model, name, env.modelFiles);
      if !inModel.Missing? then inModel
      else Lookup(env, env.programs, name, map[])
  }

  method GetMatchedString(env: Env, root: Json, name: string, files: map<string, Json>) returns (r: Found)
    ensures r == Lookup(env, root, name, files)
  {
    if !root.Dict? {
      return Missing;
    }
    if name in root.fields {
      return Text(Show(env, root.fields[name]));
    }
    var fields := Split(name);
    var entry := root;
    for i := 0 to |fields|
      invariant Walk(root, fields) == Walk(entry, fields[i..])
    {
      var field := fields[i];
      match Has(entry, field) {
        case No => return Missing;
        case Unsupported => return Raised;
        case Yes =>
          if !entry.Dict? {
            return Raised;
          }
          assert fields[i..][1..] == fields[i + 1..];
          entry := entry.fields[field];
      }
    }
    r := EntryText(env, entry, fields[|fields| - 1], files);
  }

  // What a lookup finds, by the keys that lead there.

  /** A key of the dictionary itself comes first, dots or not. */
  lemma KeyIsFound(env: Env, root: Json, name: string, files: map<string, Json>)
    requires root.Dict? && name in root.fields
    ensures Lookup(env, root, name, files) ==
      Text(if root.fields[name].Str? then root.fields[name].text else env.show(root.fields[name]))
  {
  }

  lemma {:induction false} DotIndexIs(s: string, i: nat)
    requires i <= |s| && '.' !in s[..i] && (i < |s| ==> s[i] == '.')
    ensures DotIndex(s) == i
  {
    if i > 0 {
      assert s[..i][0] == s[0] && s[..i][1..] == s[1..][..i - 1];
      DotIndexIs(s[1..], i - 1);
    }
  }

  /** The fields of a path, which have no dots. */
  predicate IsPath(path: seq<string>) {
    path != [] && forall i | 0 <= i < |path| :: '.' !in path[i]
  }

  lemma {:induction false} SplitJoin(path: seq<string>)
    requires IsPath(path)
    ensures Split(Join(path)) == path
  {
    var name := Join(path);
    if |path| == 1 {
      assert name[..|name|] == name;
      DotIndexIs(name, |name|);
    } else {
      var i, rest := |path[0]|, Join(path[1..]);
      assert name == path[0] + "." + rest;
      assert name[..i] == path[0] && name[i] == '.' && name[i + 1..] == rest;
      DotIndexIs(name, i);
      hide Join, DotIndex;
      SplitJoin(path[1..]);
    }
  }

  lemma {:induction false} WalkAlong(entry: Json, path: seq<string>, k: nat)
    requires k <= |path| && At(entry, path[..k]).Some?
    ensures Walk(entry, path) == Walk(At(entry, path[..k]).value, path[k..])
    decreases k
  {
    if k == 0 {
      assert path[..0] == [] && path[0..] == path;
    } else {
      assert path[..k][0] == path[0] && path[..k][1..] == path[1..][..k - 1] && path[1..][k - 1..] == path[k..];
      WalkAlong(entry.fields[path[0]], path[1..], k - 1);
    }
  }

  ghost predicate Contains(text: string, part: string) {
    exists before, after :: IsBetween(before, part, after, text)
  }

  predicate IsBetween(before: string, part: string, after: string, text: string) {
    text == before + part + after
  }

  lemma HasPart(text: string, part: string)
    ensures Has(Str(text), part) == if Contains(text, part) then Yes else No
  {
    if i :| 0 <= i <= |text| && OccursAt(text, part, i) {
      assert IsBetween(text[..i], part, text[i + |part|..], text);
    }
    if before, after :| IsBetween(before, part, after, text) {
      assert OccursAt(text, part, |before|);
    }
  }

  /** Where all keys of a dotted path are there, its end is found: the file listed under the last
      key, if the entry there has a location and that key is listed; else its text; and anything
      but a text raises. */
  lemma PathIsFound(env: Env, root: Json, path: seq<string>, files: map<string, Json>)
    requires IsPath(path) && root.Dict? && Join(path) !in root.fields && At(root, path).Some?
    ensures var (found, entry, last) := (Lookup(env, root, Join(path), files), At(root, path).value, path[|path| - 1]);
      match entry
      case Dict(fields) =>
        found == if "location" in fields && last in files then Text(Show(env, files[last])) else Raised
      case List(items) =>
        found == if Str("location") in items && last in files then Text(Show(env, files[last])) else Raised
      case Str(text) =>
        found == if Contains(text, "location") && last in files then Text(Show(env, files[last])) else Text(text)
      case Scalar(_) => found == Raised
  {
    hide Split, Join;
    SplitJoin(path);
    assert path[..|path|] == path && path[|path|..] == [];
    WalkAlong(root, path, |path|);
    hide Walk, At, IsPath, Contains;
    if At(root, path).value.Str? {
      HasPart(At(root, path).value.text, "location");
    }
  }

  /** Where a key of the path is missing, nothing is found; where the path goes on below a list or a
      text, nothing is found unless that contains the next key, which raises; below a scalar it
      raises. */
  lemma PathStops(env: Env, root: Json, path: seq<string>, files: map<string, Json>, k: nat)
    requires IsPath(path) && root.Dict? && Join(path) !in root.fields
    requires k < |path| && At(root, path[..k]).Some?
    ensures var found := Lookup(env, root, Join(path), files);
      match At(root, path[..k]).value
      case Dict(fields) => path[k] !in fields ==> found == Missing
      case List(items) => found == if Str(path[k]) in items then Raised else Missing
      case Str(text) => found == if Contains(text, path[k]) then Raised else Missing
      case Scalar(_) => found == Raised
  {
    hide Split, Join;
    SplitJoin(path);
    WalkAlong(root, path, k);
    assert path[k..][0] == path[k];
    hide At, IsPath, Contains;
    if At(root, path[..k]).value.Str? {
      HasPart(At(root, path[..k]).value.text, path[k]);
    }
  }

  // Only finitely many names resolve to anything.

  /** Every dotted path below an entry. */
  function PathNames(entry: Json): set<string> {
    if entry.Dict? then
      entry.fields.Keys +
      set k, p | k in entry.fields && p in PathNames(entry.fields[k]) :: k + "." + p
    else {}
  }

  function Names(env: Env): set<string> {
    PathNames(env.test) + PathNames(env.model) + PathNames(env.programs)
  }

  lemma {:induction false} WalkedIsPathName(entry: Json, fields: seq<string>)
    requires fields != [] && Walk(entry, fields).Reached?
    ensures Join(fields) in PathNames(entry)
    decreases |fields|
  {
    if |fields| > 1 {
      WalkedIsPathName(entry.fields[fields[0]], fields[1..]);
    }
  }

  lemma LookupIsPathName(env: Env, root: Json, name: string, files: map<string, Json>)
    requires Lookup(env, root, name, files).Text?
    ensures name in PathNames(root)
  {
    if name !in root.fields {
      WalkedIsPathName(root, Split(name));
      JoinSplit(name);
    }
  }

  lemma ResolvedIsName(env: Env, name: string)
    requires Resolve(env, name).Text?
    ensures name in Names(env)
  {
    if Lookup(env, env.test, name, env.files).Text? {
      LookupIsPathName(env, env.test, name, env.files);
    } else if Lookup(env, env.model, name, env.modelFiles).Text? {
      LookupIsPathName(env, env.model, name, env.modelFiles);
    } else {
      LookupIsPathName(env, env.programs, name, map[]);
    }
  }
}
