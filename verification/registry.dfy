/** An abstract, immutable Windows registry: the five predefined root keys
    and every key below them, addressed by full path. Whether a key can be
    opened (it exists and the caller may read it) is decided by whether its
    path is present in the store. */
module Registry {
  import opened Wrappers

  /** The kinds a registry value can have (RegistryValueKind). */
  datatype ValueKind =
    | String | ExpandString | Binary | DWord | MultiString | QWord | Unknown
    | NoneKind  // RegistryValueKind.None

  /** The data of a value as the registry hands it out; it is never
      interpreted by the seeker, only carried along. */
  datatype ValueData =
    | Text(text: string)
    | TextList(lines: seq<string>)
    | Bytes(bytes: seq<bv8>)
    | Number(n: int)
    | Null

  /** One named, typed value stored under a key. */
  datatype Value = Value(name: string, kind: ValueKind, data: ValueData)

  /** What a key holds: its subkey names and its values, each in the order
      the registry enumerates them, and the count it reports as SubKeyCount. */
  datatype Node = Node(subKeyNames: seq<string>, values: seq<Value>, subKeyCount: int)

  /** The five predefined root keys. */
  datatype RootKey = ClassesRoot | CurrentUser | LocalMachine | Users | CurrentConfig

  /** The separator between the segments of a registry path. */
  const Separator: char := '\\'

  /** The `Name` that .NET reports for each root key. */
  function RootName(root: RootKey): string
  {
    match root
    case ClassesRoot => "HKEY_CLASSES_ROOT"
    case CurrentUser => "HKEY_CURRENT_USER"
    case LocalMachine => "HKEY_LOCAL_MACHINE"
    case Users => "HKEY_USERS"
    case CurrentConfig => "HKEY_CURRENT_CONFIG"
  }

  /** The root keys in the seeker's fixed order (ROOT_KEYS). */
  const RootKeys: seq<RootKey> := [ClassesRoot, CurrentUser, LocalMachine, Users, CurrentConfig]

  /** An open key handle: its full path (RegistryKey.Name) and its contents. */
  datatype Key = Key(name: string, node: Node)

  /** The whole registry: the contents of the five roots, and the contents
      of every openable key below them, keyed by full path. */
  datatype Store = Store(
    classesRoot: Node,
    currentUser: Node,
    localMachine: Node,
    users: Node,
    currentConfig: Node,
    subKeys: map<string, Node>)

  /** The open handle of a root key; roots can always be opened. */
  function OpenRoot(reg: Store, root: RootKey): (k: Key)
    ensures k.name == RootName(root)
  {
    var node := match root
      case ClassesRoot => reg.classesRoot
      case CurrentUser => reg.currentUser
      case LocalMachine => reg.localMachine
      case Users => reg.users
      case CurrentConfig => reg.currentConfig;
    Key(RootName(root), node)
  }

  /** The full path of the subkey `name` below `parent`. */
  function ChildPath(parent: Key, name: string): string
  {
    parent.name + [Separator] + name
  }

  /** Opens `name` below `parent` for reading, yielding None instead of
      failing when the key is missing or may not be read
      (OpenReadonlySubKeySafe). */
  function OpenReadonlySubKeySafe(reg: Store, parent: Key, name: string): (r: Option<Key>)
    ensures r.Some? <==> ChildPath(parent, name) in reg.subKeys
    ensures r.Some? ==> r.value.name == ChildPath(parent, name)
    ensures r.Some? ==> r.value.node == reg.subKeys[ChildPath(parent, name)]
  {
    var path := ChildPath(parent, name);
    if path in reg.subKeys then Some(Key(path, reg.subKeys[path])) else None
  }

  /** The five roots are listed once each, and their names are distinct and
      free of the separator. */
  lemma RootKeysAreTheRoots()
    ensures |RootKeys| == 5
    ensures forall root :: root in RootKeys
    ensures forall i, j :: 0 <= i < j < |RootKeys| ==> RootKeys[i] != RootKeys[j]
    ensures forall a, b :: RootName(a) == RootName(b) ==> a == b
    ensures forall root :: Separator !in RootName(root)
  {
    forall root ensures root in RootKeys {
      match root
      case ClassesRoot => assert RootKeys[0] == root;
      case CurrentUser => assert RootKeys[1] == root;
      case LocalMachine => assert RootKeys[2] == root;
      case Users => assert RootKeys[3] == root;
      case CurrentConfig => assert RootKeys[4] == root;
    }
  }
}
