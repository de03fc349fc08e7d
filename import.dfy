/**
 * The merge mode of the `import` command (cmd/import.go): every imported
 * secret whose name some local secret already has is resolved by asking the
 * user (keep local, use imported, skip); the others are appended. Conflicts
 * are looked up in the local store as loaded, not in the list being built.
 */
module ImportCmd {
  import opened Base
  import opened Vault
  import opened SecretList
  import opened Command

  /**
   * `utils.PromptForConflictChoice(localSecret, importedSecret)` for the
   * imported secret at the given position: the user is asked afresh for every
   * imported secret, so equal records at two positions may get different answers.
   */
  type Resolver = (nat, Secret, Secret) -> GoString

  const KeepLocal := Lit("l")
  const UseImported := Lit("i")
  const SkipChoice := Lit("s")

  /**
   * PromptForConflictChoice returns only "l", "i" or "s": it asks again on any
   * other line and exits the process when standard input ends or fails.
   */
  ghost predicate ResolverOk(resolve: Resolver) {
    forall k, a, b :: resolve(k, a, b) == KeepLocal || resolve(k, a, b) == UseImported || resolve(k, a, b) == SkipChoice
  }

  datatype Action = Append | Overwrite | Skip

  /** What a choice does: "s" and "l" skip, "i" overwrites, anything else is no decision. */
  function ActionOf(choice: GoString): (r: Option<Action>)
    ensures r == Some(Skip) <==> choice == SkipChoice || choice == KeepLocal
    ensures r == Some(Overwrite) <==> choice == UseImported
    ensures r.None? <==> choice != SkipChoice && choice != KeepLocal && choice != UseImported
  {
    assert UseImported[0] == 105 && SkipChoice[0] == 115 && KeepLocal[0] == 108;
    if choice == SkipChoice || choice == KeepLocal then Some(Skip)
    else if choice == UseImported then Some(Overwrite)
    else None
  }

  /** The inner loop over the local secrets for one imported secret. */
  function Decide(local: seq<Secret>, k: nat, imp: Secret, resolve: Resolver): (a: Action)
    ensures !HasName(local, imp.name) ==> a == Append
    ensures a != Append ==> HasName(local, imp.name)
    ensures ResolverOk(resolve) && HasName(local, imp.name) ==>
              Some(a) == ActionOf(resolve(k, local[FirstIndex(local, imp.name).value], imp))
  {
    if |local| == 0 then Append
    else
      assert forall i :: 1 <= i < |local| ==> local[i] == local[1..][i - 1];
      if local[0].name == imp.name && ActionOf(resolve(k, local[0], imp)).Some? then
        ActionOf(resolve(k, local[0], imp)).value
      else Decide(local[1..], k, imp, resolve)
  }

  /** The merged list and the three counters. */
  datatype Tally = Tally(merged: seq<Secret>, imported: nat, skipped: nat, overwritten: nat)

  /** One decision applied to the tally: every imported secret is counted once, as imported or as skipped. */
  function Apply(t: Tally, imp: Secret, a: Action): (r: Tally)
    ensures r.imported + r.skipped == t.imported + t.skipped + 1
    ensures r.overwritten == t.overwritten + (if a == Overwrite then 1 else 0)
    ensures a == Skip <==> r.merged == t.merged && r.skipped == t.skipped + 1
    ensures a != Skip ==> |r.merged| > 0 && r.merged[|r.merged| - 1] == imp
    ensures a == Append ==> |r.merged| == |t.merged| + 1 && r.merged[..|t.merged|] == t.merged
  {
    match a
    case Append => t.(merged := t.merged + [imp], imported := t.imported + 1)
    case Overwrite => Tally(RemoveFirstNamed(t.merged, imp.name) + [imp], t.imported + 1, t.skipped, t.overwritten + 1)
    case Skip => t.(skipped := t.skipped + 1)
  }

  /** The outer loop after the first |imports| imported secrets. */
  function MergeSpec(local: seq<Secret>, imports: seq<Secret>, resolve: Resolver): Tally {
    if |imports| == 0 then Tally(local, 0, 0, 0)
    else
      var last := imports[|imports| - 1];
      Apply(MergeSpec(local, imports[..|imports| - 1], resolve), last, Decide(local, |imports| - 1, last, resolve))
  }

  /** The loop at import.go:86-91: splice out the first merged secret called `name`. */
  method RemoveFirst(merged: seq<Secret>, name: GoString) returns (r: seq<Secret>)
    ensures r == RemoveFirstNamed(merged, name)
  {
    r := merged;
    var m := 0;
    while m < |r|
      invariant 0 <= m <= |r| && r == merged
      invariant forall x :: 0 <= x < m ==> r[x].name != name
    {
      if r[m].name == name {
        assert FirstIndex(merged, name) == Some(m);
        r := r[..m] + r[m + 1..];
        return;
      }
      m := m + 1;
    }
  }

  /** One iteration of the outer loop (import.go:77-107): resolve `imp` against the local secrets. */
  method MergeOne(local: seq<Secret>, t: Tally, k: nat, imp: Secret, resolve: Resolver) returns (r: Tally)
    ensures r == Apply(t, imp, Decide(local, k, imp, resolve))
  {
    var merged, importedCount, skippedCount, overwrittenCount := t.merged, t.imported, t.skipped, t.overwritten;
    var conflict := false;
    var j := 0;
    while j < |local|
      invariant 0 <= j <= |local|
      invariant Decide(local, k, imp, resolve) == Decide(local[j..], k, imp, resolve)
      invariant !conflict && t == Tally(merged, importedCount, skippedCount, overwrittenCount)
    {
      assert local[j..][1..] == local[j + 1..];
      if imp.name == local[j].name {
        var choice := resolve(k, local[j], imp);
        if choice == SkipChoice {
          skippedCount := skippedCount + 1;
          conflict := true;
          break;
        } else if choice == UseImported {
          merged := RemoveFirst(merged, imp.name);
          merged := merged + [imp];
          importedCount := importedCount + 1;
          overwrittenCount := overwrittenCount + 1;
          conflict := true;
          break;
        } else if choice == KeepLocal {
          skippedCount := skippedCount + 1;
          conflict := true;
          break;
        }
      }
      j := j + 1;
    }
    if !conflict {
      merged := merged + [imp];
      importedCount := importedCount + 1;
    }
    r := Tally(merged, importedCount, skippedCount, overwrittenCount);
  }

  /**
   * The merge branch of `importCmd.Run` on the results of the two LoadStore
   * calls: the store handed to SaveStore, and the three counters printed.
   */
  method ImportMerge(importLoaded: Result<Store, LoadError>, currentLoaded: Result<Store, LoadError>,
                     resolve: Resolver) returns (o: Outcome, importedCount: nat, skippedCount: nat, overwrittenCount: nat)
    ensures importLoaded.Err? ==> o == LoadAborted(importLoaded.error)
    ensures importLoaded.Ok? && currentLoaded.Err? ==> o == LoadAborted(currentLoaded.error)
    ensures importLoaded.Ok? && currentLoaded.Ok? ==>
              var t := MergeSpec(currentLoaded.value.secrets, importLoaded.value.secrets, resolve);
              && o == Save(currentLoaded.value.(secrets := t.merged))
              && Tally(t.merged, importedCount, skippedCount, overwrittenCount) == t
  {
    if importLoaded.Err? {
      return LoadAborted(importLoaded.error), 0, 0, 0;
    }
    if currentLoaded.Err? {
      return LoadAborted(currentLoaded.error), 0, 0, 0;
    }
    var imports := importLoaded.value.secrets;
    var current := currentLoaded.value;
    var t := Tally([] + current.secrets, 0, 0, 0);
    var k := 0;
    while k < |imports|
      invariant 0 <= k <= |imports|
      invariant t == MergeSpec(current.secrets, imports[..k], resolve)
    {
      assert imports[..k + 1][..k] == imports[..k];
      t := MergeOne(current.secrets, t, k, imports[k], resolve);
      k := k + 1;
    }
    assert imports[..k] == imports;
    current := current.(secrets := t.merged);
    return Save(current), t.imported, t.skipped, t.overwritten;
  }

  /** The counters: every imported secret is imported or skipped, and overwrites are imports. */
  lemma {:induction false} MergeCounts(local: seq<Secret>, imports: seq<Secret>, resolve: Resolver)
    ensures var t := MergeSpec(local, imports, resolve);
            t.imported + t.skipped == |imports| && t.overwritten <= t.imported
  {
    if |imports| > 0 {
      MergeCounts(local, imports[..|imports| - 1], resolve);
    }
  }

  /** Every local name is still present in the merged list. */
  lemma {:induction false} MergeKeepsLocalNames(local: seq<Secret>, imports: seq<Secret>, resolve: Resolver)
    ensures forall i :: 0 <= i < |local| ==> HasName(MergeSpec(local, imports, resolve).merged, local[i].name)
  {
    if |imports| == 0 {
      forall i | 0 <= i < |local|
        ensures HasName(local, local[i].name)
      {
        assert local[i].name == local[i].name;
      }
    } else {
      var prefix, imp := imports[..|imports| - 1], imports[|imports| - 1];
      MergeKeepsLocalNames(local, prefix, resolve);
      var t0 := MergeSpec(local, prefix, resolve);
      var t := MergeSpec(local, imports, resolve);
      forall i | 0 <= i < |local|
        ensures HasName(t.merged, local[i].name)
      {
        var x := local[i].name;
        assert HasName(t0.merged, x);
        var w :| 0 <= w < |t0.merged| && t0.merged[w].name == x;
        match Decide(local, |imports| - 1, imp, resolve)
        case Append =>
          assert t.merged[w] == t0.merged[w];
        case Skip =>
        case Overwrite =>
          if x == imp.name {
            assert t.merged[|t.merged| - 1] == imp;
          } else {
            RemoveKeepsOtherNames(t0.merged, imp.name, x);
            var removed := RemoveFirstNamed(t0.merged, imp.name);
            var v :| 0 <= v < |removed| && removed[v].name == x;
            assert t.merged[v] == removed[v];
          }
      }
    }
  }

  /** The merged list has the local secrets, plus the imports, minus the overwritten ones. */
  lemma {:induction false} MergeLength(local: seq<Secret>, imports: seq<Secret>, resolve: Resolver)
    ensures var t := MergeSpec(local, imports, resolve);
            |t.merged| == |local| + t.imported - t.overwritten
  {
    if |imports| > 0 {
      var prefix, imp := imports[..|imports| - 1], imports[|imports| - 1];
      MergeLength(local, prefix, resolve);
      var t0 := MergeSpec(local, prefix, resolve);
      if Decide(local, |imports| - 1, imp, resolve) == Overwrite {
        var i :| 0 <= i < |local| && local[i].name == imp.name;
        MergeKeepsLocalNames(local, prefix, resolve);
        assert HasName(t0.merged, local[i].name);
      }
    }
  }

  /** Imported secrets under names the local store lacks are all appended, duplicates included. */
  lemma {:induction false} NewNamesAppended(local: seq<Secret>, imports: seq<Secret>, resolve: Resolver)
    requires forall i :: 0 <= i < |imports| ==> !HasName(local, imports[i].name)
    ensures MergeSpec(local, imports, resolve) == Tally(local + imports, |imports|, 0, 0)
  {
    if |imports| > 0 {
      var prefix := imports[..|imports| - 1];
      NewNamesAppended(local, prefix, resolve);
      assert local + prefix + [imports[|imports| - 1]] == local + imports;
    }
  }

  /** Every merged secret is named like a local secret or like one of `imports`. */
  ghost predicate NamesWithin(merged: seq<Secret>, local: seq<Secret>, imports: seq<Secret>) {
    forall i :: 0 <= i < |merged| ==> HasName(local, merged[i].name) || HasName(imports, merged[i].name)
  }

  /** A list within `local` and a prefix of the imports is within `local` and all the imports. */
  lemma WithinGrows(merged: seq<Secret>, local: seq<Secret>, prefix: seq<Secret>, imports: seq<Secret>)
    requires NamesWithin(merged, local, prefix)
    requires forall x :: HasName(prefix, x) ==> HasName(imports, x)
    ensures NamesWithin(merged, local, imports)
  {
  }

  /** Overwriting replaces the namesake by the imported secret: names stay unique and within the stores. */
  lemma OverwriteKeepsUnique(merged: seq<Secret>, imp: Secret, local: seq<Secret>, imports: seq<Secret>)
    requires UniqueNames(merged) && NamesWithin(merged, local, imports) && HasName(imports, imp.name)
    ensures var m := RemoveFirstNamed(merged, imp.name) + [imp];
            UniqueNames(m) && NamesWithin(m, local, imports)
  {
    var removed := RemoveFirstNamed(merged, imp.name);
    var m := removed + [imp];
    RemoveKeepsUnique(merged, imp.name);
    AppendFreshKeepsUnique(removed, imp);
    RemoveKeepsSubset(merged, imp.name);
    forall i | 0 <= i < |m|
      ensures HasName(local, m[i].name) || HasName(imports, m[i].name)
    {
      if i < |removed| {
        var j :| 0 <= j < |merged| && removed[i] == merged[j];
        assert m[i] == merged[j];
      }
    }
  }

  /** The last imported secret is new to the earlier ones, whose names all occur among the imports. */
  lemma LastImportFresh(imports: seq<Secret>)
    requires |imports| > 0 && UniqueNames(imports)
    ensures var prefix, imp := imports[..|imports| - 1], imports[|imports| - 1];
            && HasName(imports, imp.name)
            && UniqueNames(prefix)
            && !HasName(prefix, imp.name)
            && forall x :: HasName(prefix, x) ==> HasName(imports, x)
  {
    var n := |imports|;
    var prefix, imp := imports[..n - 1], imports[n - 1];
    assert imports[n - 1].name == imp.name;
    forall x | HasName(prefix, x)
      ensures HasName(imports, x)
    {
      var i :| 0 <= i < |prefix| && prefix[i].name == x;
      assert imports[i] == prefix[i];
    }
    forall i | 0 <= i < |prefix|
      ensures prefix[i].name != imp.name
    {
      assert imports[i] == prefix[i];
    }
    forall i, j | 0 <= i < j < |prefix|
      ensures prefix[i].name != prefix[j].name
    {
      assert imports[i] == prefix[i] && imports[j] == prefix[j];
    }
  }

  /**
   * With a resolver that answers only "l", "i" or "s", merging two stores
   * whose names are unique gives a list whose names are unique, each taken
   * from one of the two stores.
   */
  lemma {:induction false} MergeKeepsNamesUnique(local: seq<Secret>, imports: seq<Secret>, resolve: Resolver)
    requires ResolverOk(resolve) && UniqueNames(local) && UniqueNames(imports)
    ensures UniqueNames(MergeSpec(local, imports, resolve).merged)
    ensures NamesWithin(MergeSpec(local, imports, resolve).merged, local, imports)
  {
    if |imports| == 0 {
      forall i | 0 <= i < |local|
        ensures HasName(local, local[i].name)
      {
        assert local[i].name == local[i].name;
      }
    } else {
      var n := |imports|;
      var prefix, imp := imports[..n - 1], imports[n - 1];
      LastImportFresh(imports);
      MergeKeepsNamesUnique(local, prefix, resolve);
      var t0 := MergeSpec(local, prefix, resolve);
      WithinGrows(t0.merged, local, prefix, imports);
      match Decide(local, |imports| - 1, imp, resolve)
      case Append =>
        assert !HasName(t0.merged, imp.name);
        AppendFreshKeepsUnique(t0.merged, imp);
      case Skip =>
      case Overwrite =>
        OverwriteKeepsUnique(t0.merged, imp, local, imports);
    }
  }

  /** local {a:"1", b:"2"} merged with imported {b:"3", c:"4"} (names and values as ASCII bytes). */
  lemma MergeExample()
    ensures var a, b, b', c := Secret([97], [49], [], ZeroTime), Secret([98], [50], [], ZeroTime),
                              Secret([98], [51], [], ZeroTime), Secret([99], [52], [], ZeroTime);
            && MergeSpec([a, b], [b', c], (n, x, y) => UseImported) == Tally([a, b', c], 2, 0, 1)
            && MergeSpec([a, b], [b', c], (n, x, y) => KeepLocal) == Tally([a, b, c], 1, 1, 0)
  {
    var a, b, b', c := Secret([97], [49], [], ZeroTime), Secret([98], [50], [], ZeroTime),
                       Secret([98], [51], [], ZeroTime), Secret([99], [52], [], ZeroTime);
    assert UseImported == [105] && KeepLocal == [108] && SkipChoice == [115];
    assert [b', c][..1] == [b'] && [b'][..0] == [];
    assert [a, b][1..] == [b] && [b][1..] == [];
    var useImported: Resolver := (n, x, y) => UseImported;
    var keepLocal: Resolver := (n, x, y) => KeepLocal;
    assert Decide([b], 0, b', useImported) == Overwrite;
    assert Decide([a, b], 0, b', useImported) == Overwrite;
    assert Decide([b], 0, b', keepLocal) == Skip;
    assert Decide([a, b], 0, b', keepLocal) == Skip;
    assert Decide([], 1, c, useImported) == Append;
    assert Decide([b], 1, c, useImported) == Append;
    assert Decide([a, b], 1, c, useImported) == Append;
    assert Decide([a, b], 1, c, keepLocal) == Append;
    assert RemoveFirstNamed([b], b'.name) == [];
    assert RemoveFirstNamed([a, b], b'.name) == [a];
    assert MergeSpec([a, b], [b'], useImported) == Tally([a, b'], 1, 0, 1);
    assert MergeSpec([a, b], [b'], keepLocal) == Tally([a, b], 0, 1, 0);
  }

  /** The same record imported twice gets its own answer each time: "i" first, then "l". */
  lemma RepeatedImportAnsweredAgain()
    ensures var b, b' := Secret([98], [50], [], ZeroTime), Secret([98], [51], [], ZeroTime);
            MergeSpec([b], [b', b'], (n, x, y) => if n == 0 then UseImported else KeepLocal) == Tally([b'], 1, 1, 1)
  {
    var b, b' := Secret([98], [50], [], ZeroTime), Secret([98], [51], [], ZeroTime);
    var answer: Resolver := (n, x, y) => if n == 0 then UseImported else KeepLocal;
    assert UseImported == [105] && KeepLocal == [108] && SkipChoice == [115];
    assert [b', b'][..1] == [b'] && [b'][..0] == [];
    assert [b][1..] == [];
    assert Decide([b], 0, b', answer) == Overwrite;
    assert Decide([b], 1, b', answer) == Skip;
    assert RemoveFirstNamed([b], b'.name) == [];
    assert MergeSpec([b], [b'], answer) == Tally([b'], 1, 0, 1);
  }
}
