/**
 * The `update` command (cmd/update.go): rewrite the value and/or category of
 * the first secret with the given name, then save.
 *
 * `--category` defaults to "-", and the flag check treats "-" as "not given",
 * but the rewrite only skips an empty category: an update without `-c`
 * replaces the secret's category by "-". `UpdatedEntry` models the rewrite as
 * written and `IntendedEntry` the one that leaves the category alone.
 */
module UpdateCmd {
  import opened Base
  import opened Vault
  import opened SecretList
  import opened Command
  import opened Utils

  /** The default of `--category`. */
  const DefaultCategory := Lit("-")

  /** Length of a password `update --generate` draws (with symbols and digits). */
  const GeneratedLength := 16

  datatype UpdateFlags = UpdateFlags(name: GoString, value: GoString, category: GoString, generate: bool)

  /** The in-place field assignments of the matching secret, as written. */
  function UpdatedEntry(e: Secret, value: GoString, category: GoString, generated: Option<GoString>): (r: Secret)
    ensures r.name == e.name && r.createdAt == e.createdAt
    ensures r.category == if category != [] then category else e.category
    ensures r.value == if generated.Some? then generated.value else if value != [] then value else e.value
  {
    var e1 := if value != [] then e.(value := value) else e;
    var e2 := if category != [] then e1.(category := category) else e1;
    if generated.Some? then e2.(value := generated.value) else e2
  }

  /** The rewrite with "-" (the absent flag) treated like the empty category. */
  function IntendedEntry(e: Secret, value: GoString, category: GoString, generated: Option<GoString>): (r: Secret)
    ensures r.name == e.name && r.createdAt == e.createdAt
    ensures r.category == if category != [] && category != DefaultCategory then category else e.category
    ensures r.value == UpdatedEntry(e, value, category, generated).value
    ensures category != DefaultCategory ==> r == UpdatedEntry(e, value, category, generated)
  {
    var e1 := if value != [] then e.(value := value) else e;
    var e2 := if category != [] && category != DefaultCategory then e1.(category := category) else e1;
    if generated.Some? then e2.(value := generated.value) else e2
  }

  /** The check at update.go:39: nothing to change. */
  predicate NothingRequested(f: UpdateFlags) {
    f.value == [] && f.category == DefaultCategory && !f.generate
  }

  /** `updateCmd.Run` after the password prompt, on the result of LoadStore. */
  method UpdateRun(loaded: Result<Store, LoadError>, f: UpdateFlags, pick: Picker) returns (o: Outcome)
    requires PickerOk(pick)
    ensures loaded.Err? ==> o == LoadAborted(loaded.error)
    ensures loaded.Ok? && NothingRequested(f) ==> o == Rejected(NothingToUpdate)
    ensures loaded.Ok? && !NothingRequested(f) && !HasName(loaded.value.secrets, f.name) ==> o == NotFound
    ensures loaded.Ok? && !NothingRequested(f) && HasName(loaded.value.secrets, f.name) ==>
              var s := loaded.value;
              var i := FirstIndex(s.secrets, f.name).value;
              if f.generate && f.value == [] then
                o == match Password(GeneratedLength, true, true, pick)
                     case Err(_) => Rejected(GenerateFailed)
                     case Ok(p) => Save(s.(secrets := s.secrets[i := UpdatedEntry(s.secrets[i], f.value, f.category, Some(p))]))
              else
                o == Save(s.(secrets := s.secrets[i := UpdatedEntry(s.secrets[i], f.value, f.category, None)]))
  {
    if loaded.Err? {
      return LoadAborted(loaded.error);
    }
    var s := loaded.value;
    if f.value == [] && f.category == DefaultCategory && !f.generate {
      return Rejected(NothingToUpdate);
    }
    var generate := f.generate;
    if f.value != [] && generate {
      generate := false;   // "--value takes precedence over --generate"
    }
    var i := 0;
    while i < |s.secrets|
      invariant 0 <= i <= |s.secrets|
      invariant s == loaded.value
      invariant forall j :: 0 <= j < i ==> s.secrets[j].name != f.name
    {
      if s.secrets[i].name == f.name {
        assert FirstIndex(s.secrets, f.name) == Some(i);
        var e := s.secrets[i];
        if f.value != [] {
          e := e.(value := f.value);
        }
        if f.category != [] {
          e := e.(category := f.category);
        }
        if generate {
          var g := GeneratePassword(GeneratedLength, true, true, pick);
          if g.Err? {
            return Rejected(GenerateFailed);
          }
          e := e.(value := g.value);
        }
        s := s.(secrets := s.secrets[i := e]);
        return Save(s);
      }
      i := i + 1;
    }
    return NotFound;
  }

  /** An update touches only the first matching secret and keeps the list's length and names. */
  lemma UpdateTouchesOnlyFirstMatch(secrets: seq<Secret>, name: GoString, value: GoString, category: GoString,
                                    generated: Option<GoString>)
    requires HasName(secrets, name)
    ensures var i := FirstIndex(secrets, name).value;
            var r := secrets[i := UpdatedEntry(secrets[i], value, category, generated)];
            && |r| == |secrets|
            && (forall j :: 0 <= j < |r| && j != i ==> r[j] == secrets[j])
            && (forall j :: 0 <= j < |r| ==> r[j].name == secrets[j].name)
            && (UniqueNames(secrets) ==> UniqueNames(r))
  {
  }

  /** As written: updating only the value of a secret in category "work" moves it to category "-". */
  lemma OmittedCategoryOverwrites()
    ensures var e := Secret(Lit("mail"), Lit("old"), Lit("work"), ZeroTime);
            UpdatedEntry(e, Lit("new"), DefaultCategory, None).category == DefaultCategory
  {
  }
}
