/**
 * Operations on a store's list of secrets that several commands share: the
 * name search every command runs (first match wins) and the removal of the
 * first entry with a name (delete, and the overwrite branch of import).
 */
module SecretList {
  import opened Base
  import opened Vault

  predicate HasName(s: seq<Secret>, name: GoString) {
    exists i :: 0 <= i < |s| && s[i].name == name
  }

  /** No two secrets share a name. */
  predicate UniqueNames(s: seq<Secret>) {
    forall i, j :: 0 <= i < j < |s| ==> s[i].name != s[j].name
  }

  /** The position of the first secret called `name`. */
  function FirstIndex(s: seq<Secret>, name: GoString): (r: Option<nat>)
    ensures r.None? <==> !HasName(s, name)
    ensures r.Some? ==> r.value < |s| && s[r.value].name == name
    ensures r.Some? ==> forall j :: 0 <= j < r.value ==> s[j].name != name
  {
    if |s| == 0 then None
    else if s[0].name == name then Some(0)
    else match FirstIndex(s[1..], name)
      case None =>
        assert forall i :: 1 <= i < |s| ==> s[i] == s[1..][i - 1];
        None
      case Some(i) => Some(i + 1)
  }

  /** `s` without its first secret called `name`; `s` itself when there is none. */
  function RemoveFirstNamed(s: seq<Secret>, name: GoString): (r: seq<Secret>)
    ensures FirstIndex(s, name).None? ==> r == s
    ensures FirstIndex(s, name).Some? ==>
              var i := FirstIndex(s, name).value;
              |r| == |s| - 1 && r[..i] == s[..i] && r[i..] == s[i + 1..]
    ensures |r| == if FirstIndex(s, name).Some? then |s| - 1 else |s|
  {
    match FirstIndex(s, name)
    case None => s
    case Some(i) => s[..i] + s[i + 1..]
  }

  /** Appending a secret under a new name keeps the names unique. */
  lemma AppendFreshKeepsUnique(s: seq<Secret>, e: Secret)
    requires UniqueNames(s) && !HasName(s, e.name)
    ensures UniqueNames(s + [e])
  {
    forall i, j | 0 <= i < j < |s| + 1
      ensures (s + [e])[i].name != (s + [e])[j].name
    {
      if j == |s| {
        assert s[i].name != e.name;
      }
    }
  }

  /** Removing a secret keeps the names unique, and a unique name disappears with it. */
  lemma RemoveKeepsUnique(s: seq<Secret>, name: GoString)
    requires UniqueNames(s)
    ensures UniqueNames(RemoveFirstNamed(s, name))
    ensures !HasName(RemoveFirstNamed(s, name), name)
  {
    var r := RemoveFirstNamed(s, name);
    if FirstIndex(s, name).Some? {
      var k := FirstIndex(s, name).value;
      assert r == s[..k] + s[k + 1..];
      assert forall i :: 0 <= i < |r| ==> r[i] == s[if i < k then i else i + 1];
      forall i, j | 0 <= i < j < |r|
        ensures r[i].name != r[j].name
      {
        var i', j' := if i < k then i else i + 1, if j < k then j else j + 1;
        assert i' < j' && r[i] == s[i'] && r[j] == s[j'];
      }
      forall i | 0 <= i < |r|
        ensures r[i].name != name
      {
        var i' := if i < k then i else i + 1;
        assert r[i] == s[i'];
        if i' > k {
          assert s[k].name != s[i'].name;
        }
      }
    }
  }

  /** Removing the first `name` keeps every other name present. */
  lemma RemoveKeepsOtherNames(s: seq<Secret>, name: GoString, other: GoString)
    requires other != name && HasName(s, other)
    ensures HasName(RemoveFirstNamed(s, name), other)
  {
    var j :| 0 <= j < |s| && s[j].name == other;
    var r := RemoveFirstNamed(s, name);
    if FirstIndex(s, name).Some? {
      var k := FirstIndex(s, name).value;
      assert r == s[..k] + s[k + 1..];
      if j < k {
        assert r[j] == s[j];
      } else {
        assert j != k;
        assert r[j - 1] == s[j];
      }
    }
  }

  /** Every secret of `r` left after removing was already in `s`. */
  lemma RemoveKeepsSubset(s: seq<Secret>, name: GoString)
    ensures forall i :: 0 <= i < |RemoveFirstNamed(s, name)| ==>
              exists j :: 0 <= j < |s| && RemoveFirstNamed(s, name)[i] == s[j]
  {
    var r := RemoveFirstNamed(s, name);
    if FirstIndex(s, name).Some? {
      var k := FirstIndex(s, name).value;
      assert r == s[..k] + s[k + 1..];
      forall i | 0 <= i < |r|
        ensures exists j :: 0 <= j < |s| && r[i] == s[j]
      {
        if i < k {
          assert r[i] == s[i];
        } else {
          assert r[i] == s[i + 1];
        }
      }
    }
  }
}
