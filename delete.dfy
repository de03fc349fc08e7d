/** The `delete` command (cmd/delete.go): remove the first secret with the given name. */
module DeleteCmd {
  import opened Base
  import opened Vault
  import opened SecretList
  import opened Command

  /** `deleteCmd.Run` after the password prompt, on the result of LoadStore. */
  method DeleteRun(loaded: Result<Store, LoadError>, name: GoString) returns (o: Outcome)
    ensures loaded.Err? ==> o == LoadAborted(loaded.error)
    ensures loaded.Ok? && !HasName(loaded.value.secrets, name) ==> o == NotFound
    ensures loaded.Ok? && HasName(loaded.value.secrets, name) ==>
              o == Save(loaded.value.(secrets := RemoveFirstNamed(loaded.value.secrets, name)))
  {
    if loaded.Err? {
      return LoadAborted(loaded.error);
    }
    var s := loaded.value;
    var i := 0;
    while i < |s.secrets|
      invariant 0 <= i <= |s.secrets|
      invariant forall j :: 0 <= j < i ==> s.secrets[j].name != name
    {
      if s.secrets[i].name == name {
        assert FirstIndex(s.secrets, name) == Some(i);
        s := s.(secrets := s.secrets[..i] + s.secrets[i + 1..]);
        return Save(s);
      }
      i := i + 1;
    }
    return NotFound;
  }

  /**
   * Deleting removes one occurrence of the matched secret and nothing else:
   * the rest keep their order, and the list is one shorter.
   */
  lemma DeleteRemovesOne(secrets: seq<Secret>, name: GoString)
    requires HasName(secrets, name)
    ensures var i := FirstIndex(secrets, name).value;
            var r := RemoveFirstNamed(secrets, name);
            && |r| == |secrets| - 1
            && multiset(r) + multiset{secrets[i]} == multiset(secrets)
            && (forall j :: 0 <= j < i ==> r[j] == secrets[j])
            && (forall j :: i <= j < |r| ==> r[j] == secrets[j + 1])
  {
    var i := FirstIndex(secrets, name).value;
    SpliceFacts(secrets, i);
  }

  lemma SpliceFacts(s: seq<Secret>, i: nat)
    requires i < |s|
    ensures var r := s[..i] + s[i + 1..];
            && multiset(r) + multiset{s[i]} == multiset(s)
            && (forall j :: 0 <= j < i ==> r[j] == s[j])
            && (forall j :: i <= j < |r| ==> r[j] == s[j + 1])
  {
    assert s == s[..i] + [s[i]] + s[i + 1..];
  }
}
