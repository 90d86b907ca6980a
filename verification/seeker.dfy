/** The registry seeker: resolves a path to a root key or a key below one,
    walks one level of subkeys, and appends one match record per visited
    key to an append-only list. */
module Seeker {
  import opened Wrappers
  import opened Strings
  import opened Registry

  /** The only error the seeker raises: the path's first segment names no
      root key. */
  datatype SeekError = InvalidRootKey

  /** One value of a visited key, as recorded in a match. */
  datatype RegValueData = RegValueData(name: string, kind: ValueKind, data: ValueData)

  /** One visited key: its name, its values (None when the key could not be
      opened) and its subkey count. */
  datatype RegSeekerMatch = RegSeekerMatch(key: string, data: Option<seq<RegValueData>>, subKeyCount: int)

  /** A record of a key that could not be opened carries no values and a
      zero subkey count. */
  predicate WellFormed(m: RegSeekerMatch)
  {
    m.data.None? ==> m.subKeyCount == 0
  }

  // ---------------------------------------------------------------------
  // Root resolution
  // ---------------------------------------------------------------------

  /** The root key named by the first segment of `fullPath`; any other first
      segment, the empty one included, is an invalid root (GetRootKey). */
  function GetRootKey(fullPath: string): (r: Result<RootKey, SeekError>)
    ensures r.Success? ==> RootName(r.value) == Split(fullPath, Separator)[0]
    ensures r.Failure? ==> forall root :: RootName(root) != Split(fullPath, Separator)[0]
  {
    var path := Split(fullPath, Separator);
    match path[0]
    case "HKEY_CLASSES_ROOT" => Success(ClassesRoot)
    case "HKEY_CURRENT_USER" => Success(CurrentUser)
    case "HKEY_LOCAL_MACHINE" => Success(LocalMachine)
    case "HKEY_USERS" => Success(Users)
    case "HKEY_CURRENT_CONFIG" => Success(CurrentConfig)
    case _ => Failure(InvalidRootKey)
  }

  /** A path resolves to `root` exactly when it is the root's name or starts
      with the root's name followed by the separator. */
  lemma GetRootKeyAccepts(fullPath: string, root: RootKey)
    ensures GetRootKey(fullPath) == Success(root)
        <==> (fullPath == RootName(root) || RootName(root) + [Separator] <= fullPath)
  {
    RootKeysAreTheRoots();
    FirstPieceIs(fullPath, Separator, RootName(root));
  }

  /** A path is rejected exactly when it neither is nor starts with any of
      the five root names plus the separator; the empty path in particular. */
  lemma GetRootKeyRejects(fullPath: string)
    ensures GetRootKey(fullPath).Failure?
        <==> forall root :: fullPath != RootName(root) && !(RootName(root) + [Separator] <= fullPath)
    ensures GetRootKey("").Failure?
  {
    forall root ensures GetRootKey(fullPath) == Success(root)
        <==> (fullPath == RootName(root) || RootName(root) + [Separator] <= fullPath)
    {
      GetRootKeyAccepts(fullPath, root);
    }
    GetRootKeyAccepts("", ClassesRoot);
  }

  /** The subkey part of a path below `root`: everything after the root's
      name and one separator. The index it starts at is always within the
      path. */
  function SubKeyName(fullPath: string, root: RootKey): (sub: string)
    requires GetRootKey(fullPath) == Success(root)
    requires fullPath != RootName(root)
    ensures fullPath == RootName(root) + [Separator] + sub
  {
    GetRootKeyAccepts(fullPath, root);
    fullPath[|RootName(root)| + 1..]
  }

  // ---------------------------------------------------------------------
  // Visiting keys
  // ---------------------------------------------------------------------

  /** The values of a key, read in its value-name order, each with its name,
      kind and data passed through unchanged. */
  function ReadValues(values: seq<Value>): (r: seq<RegValueData>)
    ensures |r| == |values|
    ensures forall i :: 0 <= i < |values| ==>
      r[i].name == values[i].name && r[i].kind == values[i].kind && r[i].data == values[i].data
  {
    if |values| == 0 then []
    else [RegValueData(values[0].name, values[0].kind, values[0].data)] + ReadValues(values[1..])
  }

  /** The match record of one visited key (ProcessKey followed by AddMatch). */
  function ProcessKey(key: Option<Key>, keyName: string): (m: RegSeekerMatch)
    ensures m.key == keyName
    ensures m.data.None? <==> key.None?
    ensures key.None? ==> m.subKeyCount == 0
    ensures key.Some? ==> m.subKeyCount == key.value.node.subKeyCount
    ensures key.Some? ==> ReadValues(key.value.node.values) == m.data.value
    ensures WellFormed(m)
  {
    match key
    case None => RegSeekerMatch(keyName, None, 0)
    case Some(k) => RegSeekerMatch(keyName, Some(ReadValues(k.node.values)), k.node.subKeyCount)
  }

  /** One record per name in `names`, in order, each keyed by the short name
      and built from the subkey of `parent` of that name, or from its
      absence. */
  function SearchNames(reg: Store, parent: Key, names: seq<string>): (r: seq<RegSeekerMatch>)
    ensures |r| == |names|
    ensures forall i :: 0 <= i < |names| ==>
      r[i] == ProcessKey(OpenReadonlySubKeySafe(reg, parent, names[i]), names[i])
  {
    if |names| == 0 then []
    else
      [ProcessKey(OpenReadonlySubKeySafe(reg, parent, names[0]), names[0])]
        + SearchNames(reg, parent, names[1..])
  }

  /** The records of the immediate subkeys of `parent`, in the order the key
      enumerates them (Search). */
  function Search(reg: Store, parent: Key): (r: seq<RegSeekerMatch>)
    ensures |r| == |parent.node.subKeyNames|
    ensures forall i :: 0 <= i < |r| ==>
      var name := parent.node.subKeyNames[i];
      && r[i].key == name
      && (r[i].data.None? <==> ChildPath(parent, name) !in reg.subKeys)
      && (r[i].data.None? ==> r[i].subKeyCount == 0)
      && (r[i].data.Some? ==>
            var node := reg.subKeys[ChildPath(parent, name)];
            r[i].subKeyCount == node.subKeyCount && r[i].data.value == ReadValues(node.values))
  {
    SearchNames(reg, parent, parent.node.subKeyNames)
  }

  /** The records of the five roots themselves, in ROOT_KEYS order, each
      named by the root's own name and read from the root without
      descending into it. */
  function SeekRoots(reg: Store): (r: seq<RegSeekerMatch>)
    ensures |r| == |RootKeys| == 5
    ensures forall i :: 0 <= i < |r| ==>
      var node := OpenRoot(reg, RootKeys[i]).node;
      && r[i].key == RootName(RootKeys[i])
      && r[i].data == Some(ReadValues(node.values))
      && r[i].subKeyCount == node.subKeyCount
  {
    seq(|RootKeys|, i requires 0 <= i < |RootKeys| =>
      var key := OpenRoot(reg, RootKeys[i]);
      ProcessKey(Some(key), key.name))
  }

  // ---------------------------------------------------------------------
  // Path handling
  // ---------------------------------------------------------------------

  /** Where a path leads: all five roots (no path), one opened key, or a
      subkey that could not be opened. */
  datatype Target = AllRoots | Found(key: Key) | Absent

  /** Resolves a path as BeginSeeking does: the empty path lists the roots,
      a root's own name is that root, and anything longer opens the subkey
      after the root name and one separator. An unknown root is an error. */
  function Resolve(reg: Store, path: string): (r: Result<Target, SeekError>)
    ensures path == "" ==> r == Success(AllRoots)
    ensures r.Failure? <==> path != "" && GetRootKey(path).Failure?
    ensures r.Success? && r.value.Found? ==> r.value.key.name == path
    ensures r.Success? && r.value.Found? ==> path != "" && Split(path, Separator)[0] <= r.value.key.name
  {
    if path == "" then Success(AllRoots)
    else
      match GetRootKey(path)
      case Failure(e) => Failure(e)
      case Success(root) =>
        var rootKey := OpenRoot(reg, root);
        if rootKey.name == path then Success(Found(rootKey))
        else
          match OpenReadonlySubKeySafe(reg, rootKey, SubKeyName(path, root))
          case None => Success(Absent)
          case Some(subroot) => Success(Found(subroot))
  }

  /** The records a walk of a resolved target produces (Seek). */
  function Seek(reg: Store, target: Target): (r: seq<RegSeekerMatch>)
    ensures target.Absent? ==> r == []
    ensures target.AllRoots? ==>
      |r| == |RootKeys| && forall i :: 0 <= i < |r| ==> r[i].key == RootName(RootKeys[i]) && r[i].data.Some?
    ensures target.Found? ==>
      var names := target.key.node.subKeyNames;
      |r| == |names| && forall i :: 0 <= i < |r| ==> r[i].key == names[i]
    ensures forall i :: 0 <= i < |r| ==> WellFormed(r[i])
  {
    match target
    case AllRoots => SeekRoots(reg)
    case Found(key) => Search(reg, key)
    case Absent => []
  }

  /** The records one BeginSeeking call on `path` produces, or the error
      it raises before producing any. */
  function SeekPath(reg: Store, path: string): (r: Result<seq<RegSeekerMatch>, SeekError>)
    ensures r.Failure? <==> path != "" && GetRootKey(path).Failure?
    ensures r.Success? ==> forall i :: 0 <= i < |r.value| ==> WellFormed(r.value[i])
  {
    match Resolve(reg, path)
    case Failure(e) => Failure(e)
    case Success(target) => Success(Seek(reg, target))
  }

  /** The empty path yields exactly the five root records in ROOT_KEYS order. */
  lemma SeekPathEmpty(reg: Store)
    ensures SeekPath(reg, "") == Success(SeekRoots(reg))
  {
  }

  /** A root's own name walks that root's immediate subkeys. */
  lemma SeekPathRoot(reg: Store, root: RootKey)
    ensures SeekPath(reg, RootName(root)) == Success(Search(reg, OpenRoot(reg, root)))
  {
    GetRootKeyAccepts(RootName(root), root);
  }

  /** A path below a root walks the opened subkey, or yields no records when
      that subkey cannot be opened. */
  lemma SeekPathSubKey(reg: Store, root: RootKey, sub: string)
    ensures SeekPath(reg, RootName(root) + [Separator] + sub)
      == Success(match OpenReadonlySubKeySafe(reg, OpenRoot(reg, root), sub)
                 case None => []
                 case Some(key) => Search(reg, key))
  {
    var path := RootName(root) + [Separator] + sub;
    assert RootName(root) + [Separator] <= path;
    GetRootKeyAccepts(path, root);
    assert |path| > |RootName(root)|;
    assert path[|RootName(root)| + 1..] == sub;
  }

  /** A non-empty path whose first segment names no root raises the error
      and produces no records. */
  lemma SeekPathInvalid(reg: Store, path: string)
    ensures SeekPath(reg, path).Failure?
        <==> path != "" && forall root :: path != RootName(root) && !(RootName(root) + [Separator] <= path)
  {
    GetRootKeyRejects(path);
  }

  // ---------------------------------------------------------------------
  // The accumulating match list
  // ---------------------------------------------------------------------

  /** The match list after one BeginSeeking call, and the error it raised. */
  datatype Outcome = Outcome(matches: seq<RegSeekerMatch>, thrown: Option<SeekError>)

  /** One BeginSeeking call on a seeker whose list is `matches`: the
      records of the walk are appended, or, when the root is unknown, the
      error is raised and the list is left as it was. */
  function Accumulate(matches: seq<RegSeekerMatch>, reg: Store, path: string): (o: Outcome)
    ensures matches <= o.matches
    ensures o.thrown.Some? ==> o.matches == matches
    ensures o.thrown.Some? <==> path != "" && GetRootKey(path).Failure?
    ensures o.thrown.None? ==> o.matches[|matches|..] == SeekPath(reg, path).value
  {
    match SeekPath(reg, path)
    case Failure(e) => Outcome(matches, Some(e))
    case Success(records) => Outcome(matches + records, None)
  }

  /** The match list after a series of BeginSeeking calls, each on the list
      the previous one left. */
  function AccumulateAll(matches: seq<RegSeekerMatch>, reg: Store, paths: seq<string>): seq<RegSeekerMatch>
    decreases |paths|
  {
    if |paths| == 0 then matches
    else AccumulateAll(Accumulate(matches, reg, paths[0]).matches, reg, paths[1..])
  }

  /** The records one call appends: the walk's records, or none when it fails. */
  function Appended(reg: Store, path: string): seq<RegSeekerMatch>
  {
    match SeekPath(reg, path)
    case Failure(_) => []
    case Success(records) => records
  }

  /** The records each call appends, concatenated in call order. */
  function Produced(reg: Store, paths: seq<string>): seq<RegSeekerMatch>
    decreases |paths|
  {
    if |paths| == 0 then [] else Appended(reg, paths[0]) + Produced(reg, paths[1..])
  }

  /** Across any series of calls the list is only ever appended to: the
      earlier records keep their content and order, and what follows them
      is what the successful calls produced, in call order. */
  lemma {:induction false} AccumulateAllAppends(matches: seq<RegSeekerMatch>, reg: Store, paths: seq<string>)
    ensures AccumulateAll(matches, reg, paths) == matches + Produced(reg, paths)
    decreases |paths|
  {
    if |paths| > 0 {
      var next := Accumulate(matches, reg, paths[0]).matches;
      assert next == matches + Appended(reg, paths[0]);
      AccumulateAllAppends(next, reg, paths[1..]);
      assert AccumulateAll(matches, reg, paths) == next + Produced(reg, paths[1..]);
      assert Produced(reg, paths) == Appended(reg, paths[0]) + Produced(reg, paths[1..]);
    }
  }

  /** Seeking the same path twice on an unchanged registry appends the same
      records twice; with an unknown root, both calls append nothing. */
  lemma SeekTwiceRepeats(matches: seq<RegSeekerMatch>, reg: Store, path: string)
    ensures Accumulate(Accumulate(matches, reg, path).matches, reg, path).matches
      == matches + Appended(reg, path) + Appended(reg, path)
  {
  }

  /** A seeker instance: a match list created empty once and only appended
      to afterwards. */
  class RegistrySeeker {
    var matches: seq<RegSeekerMatch>

    constructor()
      ensures matches == []
    {
      matches := [];
    }

    /** Seeks `rootKeyName`, appending the records found; an unknown root
        is returned as the raised error and leaves the list unchanged. */
    method BeginSeeking(reg: Store, rootKeyName: string) returns (thrown: Option<SeekError>)
      modifies this
      ensures old(matches) <= matches
      ensures thrown.Some? ==> matches == old(matches)
      ensures thrown.Some? <==> rootKeyName != "" && GetRootKey(rootKeyName).Failure?
      ensures thrown.None? ==> matches == old(matches) + SeekPath(reg, rootKeyName).value
    {
      var o := Accumulate(matches, reg, rootKeyName);
      matches := o.matches;
      thrown := o.thrown;
    }

    /** A copy of the current match list (the Matches getter). */
    method Matches() returns (snapshot: seq<RegSeekerMatch>)
      ensures snapshot == matches
    {
      snapshot := matches;
    }
  }
}
