/** The expansion of placeholders on the level of tokens: what rewriting a command does,
    apart from how placeholders are found in a text and how their names resolve
    (benchmarking/frameworks/framework_base.py). */
module TokenExpansion {

  /** A command, read as single characters and placeholders. */
  datatype Token = Lit(c: char) | Hole(name: string)

  /** The names that are replaced, and by what. */
  type Definitions = map<string, seq<Token>>

  predicate Replaceable(defs: Definitions, t: Token) {
    t.Hole? && t.name in defs
  }

  /** Expands each placeholder, and those in its text, to the given depth. */
  function Expand(defs: Definitions, ts: seq<Token>, depth: nat): seq<Token>
    decreases depth, 1, |ts|
  {
    if ts == [] then [] else ExpandToken(defs, ts[0], depth) + Expand(defs, ts[1..], depth)
  }

  function ExpandToken(defs: Definitions, t: Token, depth: nat): seq<Token>
    decreases depth, 0, 0
  {
    if depth > 0 && Replaceable(defs, t) then Expand(defs, defs[t.name], depth - 1) else [t]
  }

  lemma {:induction false} ExpandAppend(defs: Definitions, a: seq<Token>, b: seq<Token>, depth: nat)
    ensures Expand(defs, a + b, depth) == Expand(defs, a, depth) + Expand(defs, b, depth)
  {
    if a == [] {
      assert a + b == b;
    } else {
      assert (a + b)[1..] == a[1..] + b;
      ExpandAppend(defs, a[1..], b, depth);
    }
  }

  lemma {:induction false} ExpandZero(defs: Definitions, ts: seq<Token>)
    ensures Expand(defs, ts, 0) == ts
  {
    if ts != [] {
      ExpandZero(defs, ts[1..]);
    }
  }

  /** Expansions compose: passing over a text twice is expanding it once, deeper. Rewriting
      breadth first therefore agrees with expanding depth first. */
  lemma {:induction false} ExpandTwice(defs: Definitions, ts: seq<Token>, j: nat, k: nat)
    ensures Expand(defs, Expand(defs, ts, j), k) == Expand(defs, ts, j + k)
    decreases j, 1, |ts|
  {
    if ts != [] {
      ExpandAppend(defs, ExpandToken(defs, ts[0], j), Expand(defs, ts[1..], j), k);
      ExpandTwice(defs, ts[1..], j, k);
      ExpandTokenTwice(defs, ts[0], j, k);
    }
  }

  lemma {:induction false} ExpandTokenTwice(defs: Definitions, t: Token, j: nat, k: nat)
    ensures Expand(defs, ExpandToken(defs, t, j), k) == ExpandToken(defs, t, j + k)
    decreases j, 0, 0
  {
    if j > 0 && Replaceable(defs, t) {
      ExpandTwice(defs, defs[t.name], j - 1, k);
    } else {
      assert Expand(defs, [t], k) == ExpandToken(defs, t, k) + Expand(defs, [], k);
    }
  }

  predicate HasLive(defs: Definitions, ts: seq<Token>) {
    exists t :: t in ts && Replaceable(defs, t)
  }

  lemma {:induction false} NothingLive(defs: Definitions, ts: seq<Token>, depth: nat)
    requires !HasLive(defs, ts)
    ensures Expand(defs, ts, depth) == ts
  {
    if ts != [] {
      assert ts[0] in ts;
      NothingLive(defs, ts[1..], depth);
    }
  }

  lemma {:induction false} DeadStays(defs: Definitions, ts: seq<Token>, t: Token, depth: nat)
    requires t in ts && !Replaceable(defs, t)
    ensures t in Expand(defs, ts, depth)
  {
    if t != ts[0] {
      DeadStays(defs, ts[1..], t, depth);
    }
  }

  // Chains of definitions.

  predicate Mentions(defs: Definitions, name: string, other: string) {
    name in defs && Hole(other) in defs[name]
  }

  /** Live names, the first mentioned in `ts`, each later one in the text of the one before. */
  ghost predicate Chain(defs: Definitions, ts: seq<Token>, names: seq<string>) {
    names != [] && Hole(names[0]) in ts &&
    (forall k | 0 <= k < |names| :: names[k] in defs) &&
    (forall j, k | 0 <= j < |names| && k == j + 1 && k < |names| :: Mentions(defs, names[j], names[k]))
  }

  /** No chain of definitions that starts in the command comes back to a name. */
  ghost predicate Acyclic(defs: Definitions, ts: seq<Token>) {
    forall names, i, j | Chain(defs, ts, names) && 0 <= i < j < |names| :: names[i] != names[j]
  }

  lemma ChainCons(defs: Definitions, ts: seq<Token>, name: string, rest: seq<string>)
    requires Hole(name) in ts && name in defs && Chain(defs, defs[name], rest)
    ensures Chain(defs, ts, [name] + rest)
  {
    var names := [name] + rest;
    forall j, k | 0 <= j < |names| && k == j + 1 && k < |names|
      ensures names[k] in defs && Mentions(defs, names[j], names[k])
    {
      assert names[k] == rest[j];
    }
  }

  /** A name still replaceable at some depth is reached by a chain of that length. */
  lemma {:induction false} LiveNeedsChain(defs: Definitions, ts: seq<Token>, depth: nat) returns (names: seq<string>)
    requires HasLive(defs, Expand(defs, ts, depth))
    ensures Chain(defs, ts, names) && |names| == depth + 1
    decreases depth, |ts|
  {
    var t :| t in Expand(defs, ts, depth) && Replaceable(defs, t);
    if t in Expand(defs, ts[1..], depth) {
      names := LiveNeedsChain(defs, ts[1..], depth);
      assert Hole(names[0]) in ts[1..];
    } else {
      assert t in ExpandToken(defs, ts[0], depth) && ts[0] in ts;
      names := [ts[0].name];
      if depth > 0 {
        var rest := LiveNeedsChain(defs, defs[ts[0].name], depth - 1);
        ChainCons(defs, ts, ts[0].name, rest);
        names := names + rest;
      }
    }
  }

  /** And conversely: a chain keeps a name replaceable for as many passes as it is long. */
  lemma {:induction false} ChainKeepsLive(defs: Definitions, ts: seq<Token>, names: seq<string>)
    requires Chain(defs, ts, names)
    ensures HasLive(defs, Expand(defs, ts, |names| - 1))
    decreases |names|, |ts|
  {
    var depth := |names| - 1;
    if ts[0] != Hole(names[0]) {
      ChainKeepsLive(defs, ts[1..], names);
      var t :| t in Expand(defs, ts[1..], depth) && Replaceable(defs, t);
      assert t in Expand(defs, ts, depth);
    } else {
      if depth > 0 {
        assert Mentions(defs, names[0], names[1]);
        ChainKeepsLive(defs, defs[names[0]], names[1..]);
      } else {
        assert ts[0] in ExpandToken(defs, ts[0], depth) && Replaceable(defs, ts[0]);
      }
      var t :| t in ExpandToken(defs, ts[0], depth) && Replaceable(defs, t);
      assert t in Expand(defs, ts, depth);
    }
  }

  lemma {:induction false} Pigeonhole(names: seq<string>, pool: set<string>)
    requires forall k | 0 <= k < |names| :: names[k] in pool
    requires forall i, j | 0 <= i < j < |names| :: names[i] != names[j]
    ensures |names| <= |pool|
  {
    if names != [] {
      var last := |names| - 1;
      Pigeonhole(names[..last], pool - {names[last]});
    }
  }

  /** Acyclic definitions are used up after as many levels as there are names. */
  lemma AcyclicEnds(defs: Definitions, ts: seq<Token>)
    requires Acyclic(defs, ts)
    ensures !HasLive(defs, Expand(defs, ts, |defs|))
  {
    if HasLive(defs, Expand(defs, ts, |defs|)) {
      var names := LiveNeedsChain(defs, ts, |defs|);
      Pigeonhole(names, defs.Keys);
    }
  }

  /** A chain that returns to a name can be run round as often as one likes. */
  lemma {:induction false} Pump(defs: Definitions, ts: seq<Token>, names: seq<string>, i: nat, j: nat, length: nat)
    returns (longer: seq<string>)
    requires Chain(defs, ts, names) && i < j < |names| && names[i] == names[j]
    ensures Chain(defs, ts, longer) && |longer| >= length
    decreases length - |names|
  {
    if |names| >= length {
      return names;
    }
    var next := names[..j] + names[i..];
    forall m, k | 0 <= m < |next| && k == m + 1 && k < |next|
      ensures Mentions(defs, next[m], next[k])
    {
      if k <= j {
        assert next[m] == names[m] && next[k] == names[k];
      } else {
        assert next[m] == names[m - j + i] && next[k] == names[k - j + i];
      }
    }
    longer := Pump(defs, ts, next, i, j, length);
  }

  /** At some depth nothing is left to expand. */
  ghost predicate Stops(defs: Definitions, ts: seq<Token>) {
    exists depth: nat :: !HasLive(defs, Expand(defs, ts, depth))
  }

  /** Expansion comes to an end exactly when no chain of definitions that starts in the
      command comes back to a name. */
  lemma StopsIffAcyclic(defs: Definitions, ts: seq<Token>)
    ensures Stops(defs, ts) <==> Acyclic(defs, ts)
  {
    if Acyclic(defs, ts) {
      AcyclicEnds(defs, ts);
    } else {
      var names, i, j :| Chain(defs, ts, names) && 0 <= i < j < |names| && names[i] == names[j];
      forall depth: nat ensures HasLive(defs, Expand(defs, ts, depth)) {
        var longer := Pump(defs, ts, names, i, j, depth + 1);
        ChainKeepsLive(defs, ts, longer[..depth + 1]);
      }
    }
  }
}
