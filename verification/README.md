# RegistrySeeker, modelled in Dafny

This project models the registry seeker of the Quasar client
(`Client/Core/Registry/RegistrySeeker.cs`). The seeker takes a registry path
and lists one level of the Windows registry below it. Each visited key becomes
one match record: the key's name, its typed values, and its subkey count. The
records are appended to a list that belongs to the seeker instance.

The registry is replaced by an immutable abstract store (`Registry.Store`). It
holds the contents of the five predefined root keys. It also holds a map from
full path to the contents of every key below them that can be opened. A key's
contents are its subkey names, its values (name, kind, data) and the number it
reports as `SubKeyCount`. Opening a subkey (`OpenReadonlySubKeySafe`) is a
lookup in that map. A path that is missing from the map stands for a key that
does not exist or may not be read. Both cases give `None`.

Modules:

- `Wrappers`: `Option` (a .NET reference that may be null) and `Result`.
- `Strings`: `Split` on one separator character, as `String.Split(char)`
  behaves, and its inverse `Join`, with both round trips proved.
- `Registry`: value kinds and data, key contents, the five root keys, their
  .NET names and the fixed `ROOT_KEYS` order, the store, and opening a key.
- `Seeker`: root resolution (`GetRootKey`), path handling (`Resolve`,
  `SubKeyName`), the one-level walk (`ProcessKey`, `Search`, `SeekRoots`,
  `Seek`, `SeekPath`), the append-only list (`Accumulate`, `AccumulateAll`),
  and the `RegistrySeeker` class that holds the list.
- `Examples`: a small registry in which one of two subkeys cannot be opened.

`GetRootKey` either returns a root or raises, so the source's `root != null`
test (line 100) always holds and the model leaves it out. An exception from `GetRootKey` is modelled as a returned error
(`SeekError.InvalidRootKey`). The list is left as it was when that happens.

## Model

| member | source | states |
|---|---|---|
| Strings.Split | Client/Core/Registry/RegistrySeeker.cs:178 | a split always has at least one piece, and no piece contains the separator |
| Strings.JoinSplit | Client/Core/Registry/RegistrySeeker.cs:178 | splitting the path loses nothing: joining the pieces with the separator gives the path back |
| Strings.SplitJoin | Client/Core/Registry/RegistrySeeker.cs:178 | separator-free pieces, joined and split again, come back unchanged, so a split is the only decomposition of its string |
| Strings.SplitNoSeparator | Client/Core/Registry/RegistrySeeker.cs:178 | a string without the separator splits into itself alone, so a bare root name is its own first segment |
| Strings.SplitAfterHead | Client/Core/Registry/RegistrySeeker.cs:178 | a separator-free head followed by the separator becomes the first segment, whatever follows |
| Strings.FirstPieceIsPrefix | Client/Core/Registry/RegistrySeeker.cs:178-180 | `path[0]` is a prefix of the path, and the separator follows it whenever it is shorter than the path |
| Strings.FirstPieceIs | Client/Core/Registry/RegistrySeeker.cs:178-180 | for a separator-free h, `path[0] == h` holds exactly when the path is h or starts with h and then the separator |
| Registry.OpenRoot | Client/Core/Registry/RegistrySeeker.cs:53-60 | the handle of each root key is named by that root's own .NET name |
| Registry.RootKeysAreTheRoots | Client/Core/Registry/RegistrySeeker.cs:53-60 | `ROOT_KEYS` lists each of the five roots exactly once, and the root names are distinct and contain no separator |
| Registry.OpenReadonlySubKeySafe | Client/Core/Registry/RegistrySeeker.cs:142 | opening a subkey never fails: it yields the key at parent path + separator + name, named by that path and holding that key's contents, when that key can be opened, and None otherwise |
| Seeker.GetRootKey | Client/Core/Registry/RegistrySeeker.cs:176-195 | on success the root's name equals the first separator-delimited segment; on failure no root's name equals it |
| Seeker.GetRootKeyAccepts | Client/Core/Registry/RegistrySeeker.cs:176-191 | a path resolves to a root exactly when it is the root's name or starts with that name and a separator (case-sensitive, exact) |
| Seeker.GetRootKeyRejects | Client/Core/Registry/RegistrySeeker.cs:192-194 | the invalid-root error is raised exactly when no root name is the path or its separator-terminated prefix; the empty path is always rejected |
| Seeker.SubKeyName | Client/Core/Registry/RegistrySeeker.cs:100-103 | for a path that resolved to a root and is not the root's name, the index after the root name and one separator lies within the path, and root name + separator + subkey name rebuilds the path |
| Seeker.ReadValues | Client/Core/Registry/RegistrySeeker.cs:151-158 | one value record per value of the key, in the key's value-name order, with name, kind and data unchanged |
| Seeker.ProcessKey | Client/Core/Registry/RegistrySeeker.cs:147-174 | the record carries the given name; its values are null exactly when the key could not be opened, and then the subkey count is 0; otherwise it carries the key's values and `SubKeyCount` |
| Seeker.SearchNames | Client/Core/Registry/RegistrySeeker.cs:140-144 | exactly one record per subkey name, in enumeration order, record i built from opening name i |
| Seeker.Search | Client/Core/Registry/RegistrySeeker.cs:138-145 | one record per immediate subkey, in order, keyed by the short name; an unopenable subkey gives null values and count 0, an openable one gives its own values and count |
| Seeker.SeekRoots | Client/Core/Registry/RegistrySeeker.cs:125-130 | exactly five records in `ROOT_KEYS` order, each named by the root's own name and read from the root itself, with no descent |
| Seeker.Resolve | Client/Core/Registry/RegistrySeeker.cs:93-120 | the empty path means all roots; resolution fails exactly when a non-empty path's root is unknown; a found key is named by the requested path itself, so cutting the root name and one separator and then opening the rest leads back to that path |
| Seeker.Seek | Client/Core/Registry/RegistrySeeker.cs:122-136 | no path gives one record with values per root, named in `ROOT_KEYS` order; a key gives one record per subkey name, in order; an unopenable target gives none; a record with null values always has subkey count 0 |
| Seeker.SeekPath | Client/Core/Registry/RegistrySeeker.cs:93-120 | one call fails exactly when the path is non-empty and its root is unknown; every record it produces is well formed |
| Seeker.SeekPathEmpty | Client/Core/Registry/RegistrySeeker.cs:116-118 | the empty path produces the five root records |
| Seeker.SeekPathRoot | Client/Core/Registry/RegistrySeeker.cs:110-113 | a path equal to a root's name walks that root's immediate subkeys |
| Seeker.SeekPathSubKey | Client/Core/Registry/RegistrySeeker.cs:100-108 | root name + separator + sub walks the subkey sub of that root, or produces no records when it cannot be opened |
| Seeker.SeekPathInvalid | Client/Core/Registry/RegistrySeeker.cs:95-97 | the call fails exactly for non-empty paths that neither are a root name nor start with one and a separator |
| Seeker.Accumulate | Client/Core/Registry/RegistrySeeker.cs:169-174 | the list is only appended to; an unknown root raises before anything is appended, leaving the list exactly as it was; otherwise the new tail is the walk's records |
| Seeker.AccumulateAllAppends | Client/Core/Registry/RegistrySeeker.cs:88-91 | over any series of calls, the list created empty stays a prefix of every later list, followed by each successful call's records in call order |
| Seeker.SeekTwiceRepeats | Client/Core/Registry/RegistrySeeker.cs:93-120 | seeking the same path twice on an unchanged registry appends identical records twice, and nothing at all when the root is unknown |
| Seeker.RegistrySeeker.BeginSeeking | Client/Core/Registry/RegistrySeeker.cs:93-120 | the instance's list only grows; it is unchanged whenever the root is unknown; otherwise exactly the walk's records for this call's registry and path are appended after the earlier ones |
| Seeker.RegistrySeeker.Matches | Client/Core/Registry/RegistrySeeker.cs:76-84 | the snapshot equals the current list |
| Examples.TwoChildSearch | Client/Core/Registry/RegistrySeeker.cs:138-167 | in a key with subkeys A and B, where only A opens and holds a DWORD 42, the walk gives A with DWORD 42 unchanged, then B with null values and count 0 |
| Examples.TwoChildWalk | Client/Core/Registry/RegistrySeeker.cs:100-108 | the path HKEY_CURRENT_USER\Software walks that key |
| Examples.BogusRootLeavesListAlone | Client/Core/Registry/RegistrySeeker.cs:192-194 | the path HKEY_BOGUS\Foo raises the invalid-root error and leaves the list as it was |

## Left out

- Real registry access (`Microsoft.Win32.Registry`, `RegistryKey`) is operating-system I/O. It is replaced by the immutable store described above.
- `OpenReadonlySubKeySafe` lives in `xClient.Core.Extensions`, which is not part of this model. It is modelled as a map lookup. Every failure it swallows (missing key, access denied, malformed name) is one case: the path is absent from the map.
- Opening the empty subkey name: a path with a trailing separator (`HKEY_CURRENT_USER\`) leads to subkey name `""`. .NET reopens the parent key in that case. The model looks up the path `HKEY_CURRENT_USER\` in the store instead.
- Key addressing: the store is looked up by the exact full-path string. .NET's `OpenSubKey` also strips a trailing separator, collapses doubled separators, and compares key names case-insensitively. None of this is modelled; no proof depends on it, because the store's contents are unconstrained.
- A null path: Dafny strings cannot be null. The empty string stands for both null and empty, which `String.IsNullOrEmpty` treats alike.
- Values are read by position. A key's value names, kinds and data come from one ordered list of entries. If a value disappears after `GetValueNames` (line 153), `GetValueKind` (line 155) throws for it; `GetValue` (line 156) would only return null. That is a race with other writers, and it is not modelled.
- How .NET decodes value data inside `GetValue` (for example, expanding environment variables in an expandable string) is not modelled. Value data is opaque and is passed through unchanged.
- `RegSeekerMatch` and `RegValueData` are not part of this model. They are plain records with the constructor arguments used at lines 157 and 171.
- The `locker` field (line 69) is documented as ensuring thread safety, but no code takes it. The model follows the code: appends are unguarded, and concurrent snapshots are not modelled.
- Disposal of handles (`using` scopes, and the subkey at line 142 that is never disposed) is resource management with no effect on the records. It is not modelled.
- `MatchFoundEventArgs` and `SearchCompletedEventArgs` (lines 26-44) are event plumbing with no logic. They are not modelled.
- The `Matches` getter returns null when the list is null. That branch is unreachable because the constructor always creates the list. The model's list is never null.
