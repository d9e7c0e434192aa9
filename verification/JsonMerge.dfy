/** Merging JSON trees (deepMerge in benchmarking/utils/utilities.py), and the outputs of
    repeated benchmark runs (benchmarking/driver/benchmark_driver.py). */
module JsonMerge {
  import opened Json
  import opened Wrappers

  /** What merging a source into a target makes of the target, or that it raises: lists are
      extended, dictionaries are merged key by key, and anything else leaves the target. A list
      extends nothing but a list; a dictionary with keys goes into nothing but a dictionary. */
  function Merge(tgt: Json, src: Json): Result<Json>
    decreases src
  {
    match src
    case List(items) => if tgt.List? then Ok(List(tgt.items + items)) else Raised
    case Dict(fields) =>
      if !tgt.Dict? then (if fields == map[] then Ok(tgt) else Raised)
      else if exists name :: name in fields && MergeField(tgt, src, name).Raised? then Raised
      else Ok(Dict(map name | name in tgt.fields.Keys + fields.Keys :: MergeField(tgt, src, name).value))
    case _ => Ok(tgt)
  }

  /** A field of two merged dictionaries. */
  function MergeField(tgt: Json, src: Json, name: string): (r: Result<Json>)
    requires tgt.Dict? && src.Dict? && (name in tgt.fields || name in src.fields)
    ensures name !in src.fields ==> r == Ok(tgt.fields[name])
    decreases src, 0
  {
    if name !in src.fields then Ok(tgt.fields[name])
    else if name !in tgt.fields then Ok(src.fields[name])
    else Merge(tgt.fields[name], src.fields[name])
  }

  /** The merged fields, when none raises. */
  lemma MergedFields(tgt: Json, src: Json)
    requires tgt.Dict? && src.Dict? && Merge(tgt, src).Ok?
    ensures Merge(tgt, src).value.Dict?
    ensures Merge(tgt, src).value.fields.Keys == tgt.fields.Keys + src.fields.Keys
    ensures forall name | name in tgt.fields || name in src.fields ::
      MergeField(tgt, src, name) == Ok(Merge(tgt, src).value.fields[name])
  {
  }

  lemma RaisingField(tgt: Json, src: Json, name: string)
    requires tgt.Dict? && src.Dict? && name in src.fields && MergeField(tgt, src, name).Raised?
    ensures Merge(tgt, src).Raised?
  {
  }

  /** `deepMerge`: whatever order the source's keys come in, and whether or not a key is new. */
  method DeepMerge(tgt: Json, src: Json) returns (r: Result<Json>)
    ensures r == Merge(tgt, src)
    decreases src
  {
    if src.List? {
      if !tgt.List? {
        return Raised;
      }
      return Ok(List(tgt.items + src.items));
    } else if src.Dict? {
      var merged := tgt;
      var names := src.fields.Keys;
      while names != {}
        invariant names <= src.fields.Keys
        invariant !tgt.Dict? ==> merged == tgt && names == src.fields.Keys
        invariant tgt.Dict? ==> merged.Dict? && merged.fields.Keys == tgt.fields.Keys + (src.fields.Keys - names)
        invariant tgt.Dict? ==> forall name | name in merged.fields ::
          if name in names then merged.fields[name] == tgt.fields[name]
          else MergeField(tgt, src, name) == Ok(merged.fields[name])
      {
        var name :| name in names;
        if !merged.Dict? {
          return Raised;
        }
        if name !in merged.fields {
          merged := Dict(merged.fields[name := src.fields[name]]);
        } else {
          var field := DeepMerge(merged.fields[name], src.fields[name]);
          if field.Raised? {
            RaisingField(tgt, src, name);
            return Raised;
          }
          merged := Dict(merged.fields[name := field.value]);
        }
        names := names - {name};
      }
      r := Ok(merged);
      if tgt.Dict? {
        assert forall name | name in src.fields :: MergeField(tgt, src, name).Ok?;
        MergedFields(tgt, src);
        assert merged.fields == Merge(tgt, src).value.fields;
      }
    } else {
      return Ok(tgt);
    }
  }

  // Grouping

  function Then(r: Result<Json>, src: Json): Result<Json> {
    if r.Ok? then Merge(r.value, src) else Raised
  }

  lemma NothingToMerge(tgt: Json)
    ensures Merge(tgt, Dict(map[])) == Ok(tgt)
  {
    if tgt.Dict? {
      assert Merge(tgt, Dict(map[])).value.fields == tgt.fields;
    }
  }

  lemma IntoNothing(src: Json)
    requires src.Dict?
    ensures Merge(Dict(map[]), src) == Ok(src)
  {
    assert forall name | name in src.fields :: MergeField(Dict(map[]), src, name).Ok?;
    assert Merge(Dict(map[]), src).value.fields == src.fields;
  }

  /** One field of the two groupings. */
  lemma FieldAssociates(a: Json, b: Json, c: Json, name: string)
    requires a.Dict? && b.Dict? && c.Dict? && Merge(b, c).Ok?
    requires name in a.fields || name in b.fields || name in c.fields
    ensures Merge(b, c).value.Dict?
    ensures name in b.fields && MergeField(a, b, name).Raised? ==> MergeField(a, Merge(b, c).value, name).Raised?
    ensures Merge(a, b).Ok? ==> Merge(a, b).value.Dict?
    ensures Merge(a, b).Ok? ==> MergeField(Merge(a, b).value, c, name) == MergeField(a, Merge(b, c).value, name)
    decreases c, 0
  {
    MergedFields(b, c);
    if Merge(a, b).Ok? {
      MergedFields(a, b);
    }
    if name in a.fields && name in b.fields && name in c.fields {
      assert MergeField(b, c, name).Ok?;
      MergeAssociates(a.fields[name], b.fields[name], c.fields[name]);
    }
  }

  lemma DictsAssociate(a: Json, b: Json, c: Json)
    requires a.Dict? && b.Dict? && c.Dict? && Merge(b, c).Ok?
    ensures Then(Merge(a, b), c) == Merge(a, Merge(b, c).value)
    decreases c, 1
  {
    var bc := Merge(b, c).value;
    MergedFields(b, c);
    if Merge(a, b).Raised? {
      var name :| name in b.fields && MergeField(a, b, name).Raised?;
      FieldAssociates(a, b, c, name);
      RaisingField(a, bc, name);
    } else {
      var ab := Merge(a, b).value;
      MergedFields(a, b);
      forall name | name in ab.fields || name in c.fields
        ensures MergeField(ab, c, name) == MergeField(a, bc, name)
      {
        FieldAssociates(a, b, c, name);
      }
      SameFields(ab, c, a, bc);
    }
  }

  /** Merges agree when their fields do. */
  lemma SameFields(a: Json, b: Json, c: Json, d: Json)
    requires a.Dict? && b.Dict? && c.Dict? && d.Dict?
    requires a.fields.Keys + b.fields.Keys == c.fields.Keys + d.fields.Keys
    requires forall name | name in a.fields || name in b.fields :: MergeField(a, b, name) == MergeField(c, d, name)
    ensures Merge(a, b) == Merge(c, d)
  {
    if name :| name in b.fields && MergeField(a, b, name).Raised? {
      assert MergeField(c, d, name).Raised?;
      RaisingField(c, d, name);
    } else {
      assert forall name | name in d.fields :: MergeField(c, d, name) == MergeField(a, b, name);
      MergedFields(a, b);
      MergedFields(c, d);
      assert Merge(a, b).value.fields == Merge(c, d).value.fields;
    }
  }

  /** Merging is associative whenever the right-hand merge is defined, raising included. */
  lemma {:induction false} MergeAssociates(a: Json, b: Json, c: Json)
    requires Merge(b, c).Ok?
    ensures Then(Merge(a, b), c) == Merge(a, Merge(b, c).value)
    decreases c, 2
  {
    NothingToMerge(a);
    if a.Dict? && b.Dict? && c.Dict? {
      DictsAssociate(a, b, c);
    } else if a.List? && b.List? && c.List? {
      assert (a.items + b.items) + c.items == a.items + (b.items + c.items);
    } else if b.Dict? && c.Dict? {
      MergedFields(b, c);
      var bc := Merge(b, c).value;
      if bc.fields == map[] {
        assert b.fields == map[] && c.fields == map[] by {
          assert b.fields.Keys <= bc.fields.Keys && c.fields.Keys <= bc.fields.Keys;
        }
      } else {
        assert b.fields != map[] || c.fields != map[] by {
          assert bc.fields.Keys == b.fields.Keys + c.fields.Keys;
          assert bc.fields.Keys != {};
        }
      }
    }
  }

  /** The right-hand grouping. */
  function Before(tgt: Json, r: Result<Json>): Result<Json> {
    if r.Ok? then Merge(tgt, r.value) else Raised
  }

  /** Some target takes b and then c: b leaves a target to c's choice, or both are dictionaries,
      or lists, as far as they reach the same place. */
  predicate Absorbable(b: Json, c: Json)
    decreases c
  {
    match b
    case List(_) => c.Dict? ==> c.fields == map[]
    case Dict(fields) =>
      if c.List? then fields == map[]
      else c.Dict? ==> forall name | name in c.fields && name in fields :: Absorbable(fields[name], c.fields[name])
    case _ => true
  }

  /** A target that takes b and then c, if there is any. */
  function Absorber(b: Json, c: Json): Json
    decreases c
  {
    if c.List? && !(b.Dict? && b.fields != map[]) then List([])
    else if b.List? then List([])
    else if b.Dict? && c.Dict? then
      Dict(map name | name in c.fields && name in b.fields :: Absorber(b.fields[name], c.fields[name]))
    else Dict(map[])
  }

  lemma {:induction false} AbsorberWorks(b: Json, c: Json)
    requires Absorbable(b, c)
    ensures Then(Merge(Absorber(b, c), b), c).Ok?
    decreases c
  {
    var a := Absorber(b, c);
    NothingToMerge(a);
    if b.Dict? && c.Dict? {
      AbsorberTakesDicts(b, c);
    } else if b.Dict? {
      if c.List? {
        assert Merge(a, b) == Ok(a);
      } else {
        IntoNothing(b);
      }
    } else if c.Dict? && !b.List? {
      IntoNothing(c);
    }
  }

  lemma AbsorberTakesDicts(b: Json, c: Json)
    requires b.Dict? && c.Dict? && Absorbable(b, c)
    ensures Then(Merge(Absorber(b, c), b), c).Ok?
    decreases c, 0
  {
    var a := Absorber(b, c);
    forall name | name in a.fields
      ensures Then(MergeField(a, b, name), c.fields[name]).Ok?
    {
      AbsorberWorks(b.fields[name], c.fields[name]);
    }
    assert Merge(a, b).Ok?;
    MergedFields(a, b);
    var ab := Merge(a, b).value;
    forall name | name in c.fields ensures MergeField(ab, c, name).Ok? {
      assert name in ab.fields ==> name in b.fields && name in a.fields;
    }
  }

  lemma {:induction false} OnlyAbsorbable(a: Json, b: Json, c: Json)
    requires Then(Merge(a, b), c).Ok?
    ensures Absorbable(b, c)
    decreases c
  {
    if b.Dict? && c.Dict? && a.Dict? {
      var ab := Merge(a, b).value;
      MergedFields(a, b);
      MergedFields(ab, c);
      forall name | name in c.fields && name in b.fields ensures Absorbable(b.fields[name], c.fields[name]) {
        assert MergeField(a, b, name).Ok? && MergeField(ab, c, name).Ok?;
        if name in a.fields {
          OnlyAbsorbable(a.fields[name], b.fields[name], c.fields[name]);
        } else {
          NeutralTarget(b.fields[name]);
          OnlyAbsorbable(Neutral(b.fields[name]), b.fields[name], c.fields[name]);
        }
      }
    }
  }

  /** A target that merging b turns into b. */
  function Neutral(b: Json): Json {
    match b
    case List(_) => List([])
    case Dict(_) => Dict(map[])
    case _ => b
  }

  lemma NeutralTarget(b: Json)
    ensures Merge(Neutral(b), b) == Ok(b)
  {
    if b.Dict? {
      IntoNothing(b);
    } else if b.List? {
      assert [] + b.items == b.items;
    }
  }

  /** The two groupings agree for every target exactly when the right-hand merge is defined or no
      target takes both sources. */
  lemma GroupingsAgreeIff(b: Json, c: Json)
    ensures (forall a :: Then(Merge(a, b), c) == Before(a, Merge(b, c))) <==> Merge(b, c).Ok? || !Absorbable(b, c)
  {
    if Merge(b, c).Ok? {
      forall a ensures Then(Merge(a, b), c) == Before(a, Merge(b, c)) {
        MergeAssociates(a, b, c);
      }
    } else if Absorbable(b, c) {
      AbsorberWorks(b, c);
      assert Then(Merge(Absorber(b, c), b), c) != Before(Absorber(b, c), Merge(b, c));
    } else {
      forall a ensures Then(Merge(a, b), c) == Before(a, Merge(b, c)) {
        if Then(Merge(a, b), c).Ok? {
          OnlyAbsorbable(a, b, c);
        }
      }
    }
  }

  // Paths

  /** Merging what two trees have at a path, if anything. */
  function MergeParts(tgt: Option<Json>, src: Option<Json>): Result<Option<Json>> {
    if tgt == None then Ok(src)
    else if src == None then Ok(tgt)
    else if Merge(tgt.value, src.value).Ok? then Ok(Some(Merge(tgt.value, src.value).value))
    else Raised
  }

  /** At every path, the merged tree has the merger of what the trees have there. */
  lemma {:induction false} MergeAt(tgt: Json, src: Json, path: seq<string>)
    requires Merge(tgt, src).Ok?
    ensures MergeParts(At(tgt, path), At(src, path)) == Ok(At(Merge(tgt, src).value, path))
    decreases |path|
  {
    if path != [] && tgt.Dict? && src.Dict? {
      MergedFields(tgt, src);
      var name := path[0];
      if name in tgt.fields && name in src.fields {
        assert MergeField(tgt, src, name).Ok?;
        MergeAt(tgt.fields[name], src.fields[name], path[1..]);
      }
    }
  }

  // Repeated runs

  /** A run's output dictionary, and whether the run left an error status. */
  datatype Run = Run(output: map<string, Json>, failed: bool)

  /** The first n outputs merged from the left, each into what the ones before gave. */
  function MergeAll(runs: seq<Run>, n: nat): Result<Json>
    requires n <= |runs|
  {
    if n == 0 then Ok(Dict(map[])) else Then(MergeAll(runs, n - 1), Dict(runs[n - 1].output))
  }

  /** How many runs are made when the first i are: up to and including the first to fail. */
  function MadeAfter(runs: seq<Run>, i: nat): (n: nat)
    requires i <= |runs|
    ensures i <= n <= |runs| && (i < |runs| ==> i < n)
    ensures forall j | i <= j < n - 1 :: !runs[j].failed
    ensures n < |runs| ==> runs[n - 1].failed
    decreases |runs| - i
  {
    if i == |runs| then i else if runs[i].failed then i + 1 else MadeAfter(runs, i + 1)
  }

  /** The first of n runs that has something at a path, and what it has. */
  function First(runs: seq<Run>, n: nat, path: seq<string>): Option<Json>
    requires n <= |runs|
  {
    if n == 0 then None
    else if First(runs, n - 1, path).Some? then First(runs, n - 1, path)
    else At(Dict(runs[n - 1].output), path)
  }

  function Items(part: Option<Json>): seq<Json> {
    if part.Some? && part.value.List? then part.value.items else []
  }

  /** The lists that n runs have at a path, one after another. */
  function Listed(runs: seq<Run>, n: nat, path: seq<string>): seq<Json>
    requires n <= |runs|
  {
    if n == 0 then [] else Listed(runs, n - 1, path) + Items(At(Dict(runs[n - 1].output), path))
  }

  /** What is there once all runs are merged, given what the first run has that has anything, and
      the lists of all runs: nothing, if no run has anything; the concatenation of the lists, if
      the first has a list; its value, if that is a text or a scalar; otherwise a dictionary. */
  predicate FirstDecides(there: Option<Json>, first: Option<Json>, listed: seq<Json>) {
    match first
    case None => there == None && listed == []
    case Some(List(_)) => there == Some(List(listed))
    case Some(Dict(_)) => there.Some? && there.value.Dict?
    case Some(_) => there == first
  }

  /** At a path other than the top, the first run that has anything decides what is merged there,
      and lists follow each other in run order. */
  lemma {:induction false} RunsAt(runs: seq<Run>, n: nat, path: seq<string>)
    requires n <= |runs| && MergeAll(runs, n).Ok? && path != []
    ensures FirstDecides(At(MergeAll(runs, n).value, path), First(runs, n, path), Listed(runs, n, path))
  {
    hide FirstDecides, MergeParts, Items;
    if n == 0 {
      NothingDecides(path);
    } else {
      RunsAt(runs, n - 1, path);
      hide At;
      var before, one := MergeAll(runs, n - 1).value, Dict(runs[n - 1].output);
      MergeAt(before, one, path);
      DecidesStill(At(before, path), At(one, path), At(MergeAll(runs, n).value, path), First(runs, n - 1, path),
                   Listed(runs, n - 1, path));
    }
  }

  lemma NothingDecides(path: seq<string>)
    requires path != []
    ensures FirstDecides(At(Dict(map[]), path), None, [])
  {
  }

  lemma DecidesStill(before: Option<Json>, one: Option<Json>, there: Option<Json>, first: Option<Json>,
                     listed: seq<Json>)
    requires FirstDecides(before, first, listed) && MergeParts(before, one) == Ok(there)
    ensures FirstDecides(there, if first.Some? then first else one, listed + Items(one))
  {
    PartsOf(before, one);
    hide MergeParts;
    assert [] + Items(one) == Items(one);
  }

  lemma PartsOf(tgt: Option<Json>, src: Option<Json>)
    requires MergeParts(tgt, src).Ok?
    ensures var there := MergeParts(tgt, src).value;
      match tgt
      case None => there == src
      case Some(List(items)) => there == Some(List(items + Items(src)))
      case Some(Dict(_)) => there.Some? && there.value.Dict?
      case Some(_) => there == tgt
  {
    if tgt.Some? && tgt.value.List? {
      assert tgt.value.items + [] == tgt.value.items;
    }
  }

  lemma {:induction false} RaisedStays(runs: seq<Run>, i: nat, n: nat)
    requires i <= n <= |runs| && MergeAll(runs, i).Raised?
    ensures MergeAll(runs, n).Raised?
  {
    if i < n {
      RaisedStays(runs, i, n - 1);
    }
  }

  /** The merging loop of `_runOnePass`, until the repeats are done or a run fails. */
  method RunOnePass(runs: seq<Run>) returns (output: Result<Option<Json>>)
    ensures runs == [] ==> output == Ok(None)
    ensures runs != [] ==>
      var all := MergeAll(runs, MadeAfter(runs, 0));
      output == if all.Ok? then Ok(Some(all.value)) else Raised
  {
    var merged: Option<Json> := None;
    for idx := 0 to |runs|
      invariant MadeAfter(runs, 0) == MadeAfter(runs, idx)
      invariant if idx == 0 then merged == None else merged.Some? && MergeAll(runs, idx) == Ok(merged.value)
    {
      var one := Dict(runs[idx].output);
      if merged.Some? && merged != Some(Dict(map[])) {
        var next := DeepMerge(merged.value, one);
        if next.Raised? {
          assert MergeAll(runs, idx + 1).Raised?;
          RaisedStays(runs, idx + 1, MadeAfter(runs, idx));
          return Raised;
        }
        merged := Some(next.value);
      } else {
        IntoNothing(one);
        merged := Some(one);
      }
      if runs[idx].failed {
        return Ok(merged);
      }
    }
    output := Ok(merged);
  }
}
