/**
 * The `add` command (cmd/add.go): append a new secret, either from flags
 * (`addNonInteractive`) or from prompts (`addInteractive`), then save.
 */
module AddCmd {
  import opened Base
  import opened Vault
  import opened SecretList
  import opened Command
  import opened Utils

  /** The flag values `addNonInteractive` reads. */
  datatype AddFlags = AddFlags(name: GoString, value: GoString, category: GoString, generate: bool,
                               length: int, symbols: bool, digits: bool)

  /** A new entry: CreatedAt is left at the zero time. */
  function NewEntry(name: GoString, value: GoString, category: GoString): (e: Secret)
    ensures e.name == name && e.value == value && e.category == category && e.createdAt == ZeroTime
  {
    Secret(name, value, category, ZeroTime)
  }

  /** The store with `e` appended last; everything else is kept. */
  function Appended(s: Store, e: Secret): (r: Store)
    ensures r.version == s.version && |r.secrets| == |s.secrets| + 1
    ensures r.secrets[..|s.secrets|] == s.secrets && r.secrets[|s.secrets|] == e
  {
    var r := s.(secrets := s.secrets + [e]);
    assert r.secrets[..|s.secrets|] == s.secrets;
    r
  }

  function Last(secrets: seq<Secret>): Secret
    requires |secrets| > 0
  {
    secrets[|secrets| - 1]
  }

  /** `addNonInteractive(cmd, s, filePath, password)`. */
  method AddNonInteractive(s: Store, f: AddFlags, pick: Picker) returns (o: Outcome)
    requires PickerOk(pick)
    ensures f.name == [] ==> o == Rejected(MissingName)
    ensures f.name != [] && f.value == [] && !f.generate ==> o == Rejected(MissingValue)
    ensures f.name != [] && (f.value != [] || f.generate) && HasName(s.secrets, f.name) ==> o == Rejected(DuplicateName)
    ensures f.name != [] && !HasName(s.secrets, f.name) && f.generate ==>
              o == match Password(f.length, f.symbols, f.digits, pick)
                   case Err(_) => Rejected(GenerateFailed)
                   case Ok(p) => Save(Appended(s, NewEntry(f.name, p, f.category)))
    ensures f.name != [] && !HasName(s.secrets, f.name) && !f.generate && f.value != [] ==>
              o == Save(Appended(s, NewEntry(f.name, f.value, f.category)))
    ensures o.Save? && UniqueNames(s.secrets) ==> UniqueNames(o.store.secrets)
  {
    if f.name == [] {
      return Rejected(MissingName);
    }
    if f.value == [] && !f.generate {
      return Rejected(MissingValue);
    }
    var i := 0;
    while i < |s.secrets|
      invariant 0 <= i <= |s.secrets|
      invariant forall j :: 0 <= j < i ==> s.secrets[j].name != f.name
    {
      if s.secrets[i].name == f.name {
        return Rejected(DuplicateName);
      }
      i := i + 1;
    }
    var secretValue: GoString;
    if f.generate {
      var generated := GeneratePassword(f.length, f.symbols, f.digits, pick);
      if generated.Err? {
        return Rejected(GenerateFailed);
      }
      secretValue := generated.value;
    } else {
      secretValue := f.value;
    }
    var e := NewEntry(f.name, secretValue, f.category);
    assert UniqueNames(s.secrets) ==> UniqueNames(s.secrets + [e]) by {
      if UniqueNames(s.secrets) {
        AppendFreshKeepsUnique(s.secrets, e);
      }
    }
    o := Save(Appended(s, e));
  }

  /** `addInteractive(s, filePath, password)`, given the answers to its three prompts. */
  function AddInteractive(s: Store, nameLines: seq<Answer>, value: ValueAnswers, categoryLines: seq<Answer>,
                          pick: Picker): (o: Outcome)
    requires PickerOk(pick)
    ensures o.Save? || o == Rejected(PromptFailed)
    ensures o.Save? <==> PromptForSecretName(s.secrets, nameLines).Ok?
                         && PromptForSecretValue(value, pick).Ok? && |categoryLines| > 0
    ensures o.Save? ==>
              o.store == Appended(s, NewEntry(PromptForSecretName(s.secrets, nameLines).value,
                                              PromptForSecretValue(value, pick).value, Entered([], categoryLines[0])))
    ensures o.Save? ==>
              var e := Last(o.store.secrets);
              e.name != [] && e.value != [] && !HasName(s.secrets, e.name)
    ensures o.Save? && UniqueNames(s.secrets) ==> UniqueNames(o.store.secrets)
  {
    match PromptForSecretName(s.secrets, nameLines)
    case Err(_) => Rejected(PromptFailed)
    case Ok(name) =>
      match PromptForSecretValue(value, pick)
      case Err(_) => Rejected(PromptFailed)
      case Ok(v) =>
        match PromptForCategory(categoryLines)
        case Err(_) => Rejected(PromptFailed)
        case Ok(category) =>
          var e := NewEntry(name, v, category);
          assert UniqueNames(s.secrets) ==> UniqueNames(s.secrets + [e]) by {
            if UniqueNames(s.secrets) {
              AppendFreshKeepsUnique(s.secrets, e);
            }
          }
          Save(Appended(s, e))
  }
}
