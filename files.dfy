/**
  The working directory the application runs in, seen as a map from path to
  contents.  Every JSON document is an abstract record; a file whose contents
  are not the record a reader expects stands for a document that `json.load`
  or a key lookup rejects.
 */
module Files {

  /** The `installed` section of the OAuth client-secret document `credentials.json`. */
  datatype ClientSecret = ClientSecret(clientId: string, clientSecret: string, tokenUri: string, projectId: string)

  /** The document `token.json`: `{token, refresh_token}`; an absent or null entry is the empty string. */
  datatype TokenPair = TokenPair(token: string, refreshToken: string)

  /** The document `device_config.json`: `{device_model_id, device_id, project_id}`. */
  datatype DeviceConfig = DeviceConfig(deviceModelId: string, deviceId: string, projectId: string)

  datatype Content =
    | SecretDoc(secret: ClientSecret)
    | TokenDoc(pair: TokenPair)
    | DeviceDoc(config: DeviceConfig)
    | ProtoSchema                  // the proto3 text written before compilation
    | Opaque(data: seq<int>)       // anything else: generated modules, foreign files, unparsable documents

  type FileMap = map<string, Content>

  /** The value an operation returns together with the directory it leaves behind. */
  datatype Effect<+T> = Effect(value: T, files: FileMap)

  const CredentialsFile: string := "credentials.json"
  const TokenFile: string := "token.json"
  const DeviceConfigFile: string := "device_config.json"
  const Pb2File: string := "embedded_assistant_pb2.py"
  const Pb2GrpcFile: string := "embedded_assistant_pb2_grpc.py"

  /** The path of entry `name` of directory `dir`. */
  function PathIn(dir: string, name: string): string {
    dir + "/" + name
  }

  /** A directory entry name: not empty and without a separator. */
  predicate IsEntryName(name: string) {
    name != [] && '/' !in name
  }

  /** `name` is an entry of directory `dir`. */
  predicate InDir(files: FileMap, dir: string, name: string) {
    IsEntryName(name) && PathIn(dir, name) in files
  }

  /** Entry `k` is the same in `before` and `after`: both lack it, or both hold the same contents. */
  predicate Agrees(before: FileMap, after: FileMap, k: string) {
    (k in before <==> k in after) && (k in before ==> before[k] == after[k])
  }

  /** `path` lies directly in `dir`. */
  predicate IsChildPath(dir: string, path: string) {
    |dir| + 1 < |path| && path[..|dir| + 1] == dir + "/" && '/' !in path[|dir| + 1..]
  }

  lemma PathInIsChild(dir: string, name: string)
    requires IsEntryName(name)
    ensures IsChildPath(dir, PathIn(dir, name)) && PathIn(dir, name)[|dir| + 1..] == name
  {
    var p := PathIn(dir, name);
    assert p[..|dir| + 1] == dir + "/";
    assert p[|dir| + 1..] == name;
  }

  lemma ChildIsPathIn(dir: string, path: string)
    requires IsChildPath(dir, path)
    ensures IsEntryName(path[|dir| + 1..]) && PathIn(dir, path[|dir| + 1..]) == path
  {
    assert path == path[..|dir| + 1] + path[|dir| + 1..];
  }

  /** The names `os.listdir(dir)` reports, as a set. */
  function Entries(files: FileMap, dir: string): (names: set<string>)
    ensures forall n :: n in names <==> InDir(files, dir, n)
  {
    var names := set p | p in files && IsChildPath(dir, p) :: p[|dir| + 1..];
    assert forall n :: InDir(files, dir, n) ==> n in names by {
      forall n | InDir(files, dir, n) ensures n in names {
        PathInIsChild(dir, n);
      }
    }
    assert forall n :: n in names ==> InDir(files, dir, n) by {
      forall n | n in names ensures InDir(files, dir, n) {
        var p :| p in files && IsChildPath(dir, p) && p[|dir| + 1..] == n;
        ChildIsPathIn(dir, p);
      }
    }
    names
  }

  /** Paths with a separator never collide with entry names: they live in different directories. */
  lemma PathInIsNotEntryName(dir: string, name: string)
    ensures !IsEntryName(PathIn(dir, name))
  {
    assert PathIn(dir, name)[|dir|] == '/';
  }

  lemma PathInInjective(dir: string, a: string, b: string)
    requires PathIn(dir, a) == PathIn(dir, b)
    ensures a == b
  {
    assert a == PathIn(dir, a)[|dir| + 1..];
    assert b == PathIn(dir, b)[|dir| + 1..];
  }

  /** The working directory. Its methods are the `os` calls the core makes. */
  class Disk {
    var files: FileMap

    constructor (initial: FileMap)
      ensures files == initial
    {
      files := initial;
    }

    /** `open(name, 'w')` followed by a dump of `c`. */
    method Write(name: string, c: Content)
      modifies this
      ensures files == old(files)[name := c]
    {
      files := files[name := c];
    }

    /** `os.remove(name)`; callers test `os.path.exists` first. */
    method Remove(name: string)
      requires name in files
      modifies this
      ensures files == old(files) - {name}
    {
      files := files - {name};
    }

    /** `os.rename(src, dst)`, which the caller invokes only once `dst` is gone. */
    method Rename(src: string, dst: string)
      requires src in files && dst !in files
      modifies this
      ensures files == (old(files) - {src})[dst := old(files)[src]]
    {
      files := (files - {src})[dst := files[src]];
    }

    /** `os.listdir(dir)`: every entry once, in an order the model does not fix. */
    method ListDir(dir: string) returns (names: seq<string>)
      ensures forall i, j :: 0 <= i < j < |names| ==> names[i] != names[j]
      ensures forall n :: n in names <==> InDir(files, dir, n)
    {
      var pending := Entries(files, dir);
      names := [];
      while pending != {}
        invariant forall i, j :: 0 <= i < j < |names| ==> names[i] != names[j]
        invariant forall n :: n in pending ==> n !in names
        invariant forall n :: InDir(files, dir, n) <==> n in names || n in pending
        decreases pending
      {
        var n :| n in pending;
        names := names + [n];
        pending := pending - {n};
      }
    }
  }
}
