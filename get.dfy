/** The `get` command (cmd/get.go): report the value of the first secret with the given name. */
module GetCmd {
  import opened Base
  import opened Vault
  import opened SecretList
  import opened Command

  /** The value of the first secret called `name`, if any. */
  function Lookup(secrets: seq<Secret>, name: GoString): (r: Option<GoString>)
    ensures r.Some? <==> HasName(secrets, name)
    ensures r.Some? ==> r.value == secrets[FirstIndex(secrets, name).value].value
  {
    if |secrets| == 0 then None
    else if secrets[0].name == name then Some(secrets[0].value)
    else
      assert forall i :: 1 <= i < |secrets| ==> secrets[i] == secrets[1..][i - 1];
      Lookup(secrets[1..], name)
  }

  /** `getCmd.Run` after the password prompt, on the result of LoadStore. */
  function GetRun(loaded: Result<Store, LoadError>, name: GoString): (o: Outcome)
    ensures loaded.Err? ==> o == LoadAborted(loaded.error)
    ensures loaded.Ok? && !HasName(loaded.value.secrets, name) ==> o == NotFound
    ensures loaded.Ok? && HasName(loaded.value.secrets, name) ==>
              o == Show(loaded.value.secrets[FirstIndex(loaded.value.secrets, name).value].value)
    ensures !o.Save?
  {
    match loaded
    case Err(e) => LoadAborted(e)
    case Ok(s) =>
      match Lookup(s.secrets, name)
      case None => NotFound
      case Some(v) => Show(v)
  }

  /** The k-th secret is reported exactly when it is the first one with its name. */
  lemma {:induction false} GetReportsFirstMatch(secrets: seq<Secret>, k: nat)
    requires k < |secrets|
    requires forall j :: 0 <= j < k ==> secrets[j].name != secrets[k].name
    ensures Lookup(secrets, secrets[k].name) == Some(secrets[k].value)
  {
    if k > 0 {
      assert secrets[0].name != secrets[k].name;
      assert secrets[1..][k - 1] == secrets[k];
      GetReportsFirstMatch(secrets[1..], k - 1);
    }
  }
}
