/** Concrete walks over small registries. */
module Examples {
  import opened Wrappers
  import opened Registry
  import opened Seeker

  /** A registry whose HKEY_CURRENT_USER\Software lists subkeys "A" and
      "B"; "A" holds the DWORD value "n" = 42 and "B" cannot be opened. */
  function TwoChildStore(): Store
  {
    var empty := Node([], [], 0);
    var software := Node(["A", "B"], [], 2);
    var a := Node([], [Value("n", DWord, Number(42))], 0);
    Store(empty, Node(["Software"], [], 1), empty, empty, empty,
      map["HKEY_CURRENT_USER\\Software" := software, "HKEY_CURRENT_USER\\Software\\A" := a])
  }

  /** The handle of HKEY_CURRENT_USER\Software in the two-child registry. */
  function SoftwareKey(): Key
  {
    Key("HKEY_CURRENT_USER\\Software", TwoChildStore().subKeys["HKEY_CURRENT_USER\\Software"])
  }

  /** Walking HKEY_CURRENT_USER\Software yields two records in order: "A"
      with its DWORD 42 unchanged, and "B" with no values and no subkeys. */
  lemma TwoChildSearch()
    ensures Search(TwoChildStore(), SoftwareKey()) == [
      RegSeekerMatch("A", Some([RegValueData("n", DWord, Number(42))]), 0),
      RegSeekerMatch("B", None, 0)]
  {
    var reg := TwoChildStore();
    var key := SoftwareKey();
    var aPath := ChildPath(key, "A");
    var bPath := ChildPath(key, "B");
    assert aPath == "HKEY_CURRENT_USER\\Software\\A";
    assert bPath == "HKEY_CURRENT_USER\\Software\\B";
    assert OpenReadonlySubKeySafe(reg, key, "B") == None;
    assert OpenReadonlySubKeySafe(reg, key, "A") == Some(Key(aPath, reg.subKeys[aPath]));
    var values := ReadValues([Value("n", DWord, Number(42))]);
    assert values == [RegValueData("n", DWord, Number(42))];
    var walk := Search(reg, key);
    assert |walk| == 2;
    assert walk[0] == RegSeekerMatch("A", Some(values), 0);
    assert walk[1] == RegSeekerMatch("B", None, 0);
  }

  /** Seeking the path HKEY_CURRENT_USER\Software walks that key. */
  lemma TwoChildWalk(sub: string)
    // The literal arrives as a parameter so that the verifier does not
    // unfold Split over a literal string.
    requires sub == "Software"
    ensures SeekPath(TwoChildStore(), RootName(CurrentUser) + [Separator] + sub)
      == Success(Search(TwoChildStore(), SoftwareKey()))
  {
    var reg := TwoChildStore();
    var root := OpenRoot(reg, CurrentUser);
    assert ChildPath(root, sub) == "HKEY_CURRENT_USER\\Software";
    SeekPathSubKey(reg, CurrentUser, sub);
    assert OpenReadonlySubKeySafe(reg, root, sub) == Some(SoftwareKey());
  }

  /** A path under an unknown root raises the error and appends nothing. */
  lemma BogusRootLeavesListAlone(matches: seq<RegSeekerMatch>, path: string)
    // The literal arrives as a parameter so that the verifier does not
    // unfold Split over a literal string.
    requires path == "HKEY_BOGUS\\Foo"
    ensures Accumulate(matches, TwoChildStore(), path) == Outcome(matches, Some(InvalidRootKey))
  {
    assert path[5] == 'B';
    forall root ensures path != RootName(root) && !(RootName(root) + [Separator] <= path) {
      assert RootName(root)[5] != 'B';
    }
    SeekPathInvalid(TwoChildStore(), path);
  }
}
