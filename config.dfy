/** config.go: the configuration record, the repository include/exclude
    filter and the check of the keys found in a configuration file. */
module Config {
  import opened Wrappers
  import opened Constants

  /** The settings of one run, from the ".rprc" file and the flags. */
  datatype Config = Config(
    branch: string,
    update: bool,
    includes: seq<string>,
    excludes: seq<string>,
    force: bool,
    remoteName: string)

  // ---------------------------------------------------------------------------
  // isIncluded (config.go:86-98)
  // ---------------------------------------------------------------------------

  /** Whether the repository named `repoName` takes part in the run: a name
      on the include list always does; otherwise a name on the exclude list
      does not, and any other name does only when the include list is empty. */
  function IsIncluded(repoName: string, includes: seq<string>, excludes: seq<string>): (r: bool)
    ensures r <==> repoName in includes || (includes == [] && repoName !in excludes)
  {
    if InList(repoName, includes) then true
    else if InList(repoName, excludes) then false
    else |includes| == 0
  }

  /** The scan of one list for a name, front to back. */
  function InList(name: string, list: seq<string>): (found: bool)
    ensures found <==> name in list
  {
    if list == [] then false
    else if list[0] == name then true
    else
      assert forall x :: x in list <==> x == list[0] || x in list[1..] by {
        assert list == [list[0]] + list[1..];
      }
      InList(name, list[1..])
  }

  /** The cases of the repository's test of the filter. */
  lemma IsIncludedTestTable()
    ensures IsIncluded("repo1", ["repo1", "repo2"], ["repo3"])
    ensures IsIncluded("repo2", ["repo1", "repo2"], ["repo3"])
    ensures !IsIncluded("repo3", ["repo1", "repo2"], ["repo3"])
    ensures IsIncluded("repo4", [], ["repo3"])
    ensures !IsIncluded("repo3", [], ["repo3"])
    ensures IsIncluded("repo1", ["repo1", "repo2"], [])
    ensures !IsIncluded("repo4", ["repo1", "repo2"], [])
    ensures IsIncluded("repo5", [], [])
    ensures IsIncluded("repo6", ["repo1", "repo2", "repo6"], ["repo3", "repo6"])
  {
    assert "repo3" != "repo1" && "repo3" != "repo2" by { assert "repo3"[4] == '3'; }
    assert "repo4" != "repo1" && "repo4" != "repo2" && "repo4" != "repo3" by { assert "repo4"[4] == '4'; }
  }

  // ---------------------------------------------------------------------------
  // validateKeys (config.go:42-49, 63-70)
  // ---------------------------------------------------------------------------

  /** The keys a configuration file may use. */
  const ValidKeys: map<string, bool> :=
    map["branch" := true, "update" := true, "include" := true,
        "exclude" := true, "force" := true, "remote_name" := true]

  /** A key passes when the table maps it to true; a missing key reads as false. */
  predicate Allowed(validKeys: map<string, bool>, key: string) {
    key in validKeys && validKeys[key]
  }

  /** The error naming an unsupported key. */
  function UnsupportedKey(key: string): string {
    LightRed + "Error unsupported key in config file: " + key + Reset
  }

  /** validateKeys over the keys of the decoded file, given in the order the
      map iteration visits them: the error for the first key that is not
      allowed, or None when every key is. */
  function ValidateKeys(keys: seq<string>, validKeys: map<string, bool>): (r: Option<string>)
    ensures r.None? <==> forall k :: 0 <= k < |keys| ==> Allowed(validKeys, keys[k])
    ensures r.Some? ==>
              exists i :: 0 <= i < |keys| && !Allowed(validKeys, keys[i]) &&
                r.value == UnsupportedKey(keys[i]) &&
                forall j :: 0 <= j < i ==> Allowed(validKeys, keys[j])
  {
    if keys == [] then None
    else if !Allowed(validKeys, keys[0]) then Some(UnsupportedKey(keys[0]))
    else
      var r := ValidateKeys(keys[1..], validKeys);
      assert r.Some? ==> exists i :: (1 <= i < |keys| && !Allowed(validKeys, keys[i]) &&
                r.value == UnsupportedKey(keys[i]) &&
                forall j :: 0 <= j < i ==> Allowed(validKeys, keys[j])) by {
        if r.Some? {
          var i :| 0 <= i < |keys| - 1 && !Allowed(validKeys, keys[1..][i]) &&
                r.value == UnsupportedKey(keys[1..][i]) &&
                forall j :: 0 <= j < i ==> Allowed(validKeys, keys[1..][j]);
          assert keys[i + 1] == keys[1..][i];
          forall j | 0 <= j < i + 1 ensures Allowed(validKeys, keys[j]) {
            if j > 0 { assert keys[j] == keys[1..][j - 1]; }
          }
        }
      }
      assert (forall k :: 0 <= k < |keys| - 1 ==> Allowed(validKeys, keys[1..][k])) ==>
             (forall k :: 0 <= k < |keys| ==> Allowed(validKeys, keys[k])) by {
        if forall k :: 0 <= k < |keys| - 1 ==> Allowed(validKeys, keys[1..][k]) {
          forall k | 0 <= k < |keys| ensures Allowed(validKeys, keys[k]) {
            if k > 0 { assert keys[k] == keys[1..][k - 1]; }
          }
        }
      }
      r
  }

  /** Whatever order the keys are visited in, a file whose only unsupported
      key is `bad` is refused with the error naming `bad`. */
  lemma {:induction false} OnlyBadKeyNamed(keys: seq<string>, validKeys: map<string, bool>, bad: string)
    requires bad in keys
    requires forall k :: 0 <= k < |keys| ==> keys[k] == bad || Allowed(validKeys, keys[k])
    requires !Allowed(validKeys, bad)
    ensures ValidateKeys(keys, validKeys) == Some(UnsupportedKey(bad))
  {
    var r := ValidateKeys(keys, validKeys);
    assert r.Some? by {
      var i :| 0 <= i < |keys| && keys[i] == bad;
    }
    var i :| 0 <= i < |keys| && !Allowed(validKeys, keys[i]) && r.value == UnsupportedKey(keys[i]);
    assert keys[i] == bad;
  }

  /** Every key of the table is allowed, and "invalid_key" is not a key of it. */
  lemma ValidKeysTable()
    ensures forall key :: key in ValidKeys ==> Allowed(ValidKeys, key)
    ensures !Allowed(ValidKeys, "invalid_key")
  {
    var bad := "invalid_key";
    assert bad[0] == 'i';
    assert bad != "branch" && bad != "update" && bad != "include";
    assert bad != "exclude" && bad != "force" && bad != "remote_name";
  }

  /** The repository's test of the key check: the six supported keys pass,
      and adding "invalid_key" is refused with an error naming it. */
  lemma ValidateKeysTestTable(keys: seq<string>)
    requires forall k :: 0 <= k < |keys| ==> keys[k] in ValidKeys || keys[k] == "invalid_key"
    ensures "invalid_key" !in keys ==> ValidateKeys(keys, ValidKeys) == None
    ensures "invalid_key" in keys ==>
              ValidateKeys(keys, ValidKeys) == Some(UnsupportedKey("invalid_key"))
  {
    ValidKeysTable();
    if "invalid_key" in keys {
      OnlyBadKeyNamed(keys, ValidKeys, "invalid_key");
    } else {
      assert forall k :: 0 <= k < |keys| ==> keys[k] in ValidKeys by {
        forall k | 0 <= k < |keys| ensures keys[k] in ValidKeys {
          assert keys[k] in keys;
        }
      }
    }
  }
}
