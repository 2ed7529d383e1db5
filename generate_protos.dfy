/**
  Generation of the protocol-buffer modules: write the schema, let protoc
  compile it, and move the generated `_pb2` modules out of the schema's
  package directory into the working directory.
 */
module GenerateProtos {
  import opened Files

  const SourceDir: string := "google/assistant/embedded/v1alpha2"
  const ProtoName: string := "embedded_assistant.proto"
  /** The schema's path: entry `ProtoName` of `SourceDir`. */
  const ProtoPath: string := PathIn(SourceDir, ProtoName)

  predicate EndsWith(s: string, suffix: string) {
    |suffix| <= |s| && s[|s| - |suffix|..] == suffix
  }

  /** The filter of `move_generated_files`. */
  predicate IsGenerated(name: string) {
    EndsWith(name, "_pb2.py") || EndsWith(name, "_pb2_grpc.py")
  }

  /** Both modules the application needs pass the filter; the schema itself does not. */
  lemma FilterSelectsModules()
    ensures IsGenerated(Pb2File) && IsGenerated(Pb2GrpcFile)
    ensures !IsGenerated(ProtoName)
  {
    assert Pb2File == "embedded_assistant" + "_pb2.py";
    assert Pb2GrpcFile == "embedded_assistant" + "_pb2_grpc.py";
    var p := ProtoName;
    assert p[|p| - 1] == 'o';
  }

  /**
    The schema is written as entry `ProtoName` of the package directory, so it
    lies directly in `SourceDir` and is not an entry of the working directory.
   */
  lemma SchemaIsInPackage()
    ensures ProtoPath == PathIn(SourceDir, ProtoName)
    ensures IsChildPath(SourceDir, ProtoPath)
    ensures !IsEntryName(ProtoPath)
  {
    assert IsEntryName(ProtoName);
    PathInIsChild(SourceDir, ProtoName);
    PathInIsNotEntryName(SourceDir, ProtoName);
  }

  /** None of the three documents of the working directory passes the filter. */
  lemma DocumentsAreNotGenerated()
    ensures !IsGenerated(CredentialsFile) && !IsGenerated(TokenFile) && !IsGenerated(DeviceConfigFile)
  {
    assert CredentialsFile[|CredentialsFile| - 1] == 'n';
    assert TokenFile[|TokenFile| - 1] == 'n';
    assert DeviceConfigFile[|DeviceConfigFile| - 1] == 'n';
  }

  /**
    What protoc can write. With the working directory as both the include root
    and the output root, the modules for a schema in `SourceDir` land in
    `SourceDir` itself.
   */
  type PackageFiles = m: FileMap | forall k :: k in m ==> IsChildPath(SourceDir, k) witness map[]

  /** protoc as an oracle: its exit status and the files it wrote, or an import/launch failure. */
  datatype ProtocRun = Exited(status: int, outputs: PackageFiles) | Unavailable

  /** The external outcomes of one `generate_protos`. */
  datatype ProtoOracle = ProtoOracle(installed: bool, protoc: ProtocRun)

  /** The entries of `dir` that the filter selects. */
  function Generated(files: FileMap, dir: string): set<string> {
    set n | n in Entries(files, dir) && IsGenerated(n)
  }

  function SourcePaths(dir: string, moved: set<string>): set<string> {
    set n | n in moved :: PathIn(dir, n)
  }

  /** The directory once every entry in `moved` has been moved from `dir` to the working directory. */
  function Relocate(files: FileMap, dir: string, moved: set<string>): FileMap
    requires forall n :: n in moved ==> InDir(files, dir, n)
  {
    map k | k in (files.Keys - SourcePaths(dir, moved)) + moved ::
      if k in moved then assert InDir(files, dir, k); files[PathIn(dir, k)] else files[k]
  }

  /** One iteration of the loop: remove `name` if present, then rename `dir/name` to `name`. */
  function MoveOne(files: FileMap, dir: string, name: string): FileMap
    requires PathIn(dir, name) in files
  {
    (files - {name, PathIn(dir, name)})[name := files[PathIn(dir, name)]]
  }

  lemma RelocateStep(files: FileMap, dir: string, moved: set<string>, name: string)
    requires forall n :: n in moved ==> InDir(files, dir, n)
    requires InDir(files, dir, name) && name !in moved
    ensures PathIn(dir, name) in Relocate(files, dir, moved)
    ensures MoveOne(Relocate(files, dir, moved), dir, name) == Relocate(files, dir, moved + {name})
  {
    var src := PathIn(dir, name);
    assert src !in SourcePaths(dir, moved) by {
      forall n | n in moved ensures PathIn(dir, n) != src {
        if PathIn(dir, n) == src { PathInInjective(dir, n, name); }
      }
    }
    PathInIsNotEntryName(dir, name);
    assert SourcePaths(dir, moved + {name}) == SourcePaths(dir, moved) + {src};
    var r := Relocate(files, dir, moved);
    var lhs := MoveOne(r, dir, name);
    var rhs := Relocate(files, dir, moved + {name});
    assert lhs.Keys == rhs.Keys;
    forall k | k in lhs.Keys ensures lhs[k] == rhs[k] {
      if k != name && k !in moved {
        assert k in files && k !in SourcePaths(dir, moved);
      }
    }
  }

  /**
    What relocation does: each moved name now holds what its source entry
    held, and the source entry is gone; every path that is neither a moved
    name nor the source of a moved name is untouched, other entries of the
    source directory included.
   */
  lemma RelocateEffects(files: FileMap, dir: string, moved: set<string>)
    requires forall n :: n in moved ==> InDir(files, dir, n)
    ensures var r := Relocate(files, dir, moved);
      forall n :: n in moved ==> n in r && r[n] == files[PathIn(dir, n)] && PathIn(dir, n) !in r
    ensures var r := Relocate(files, dir, moved);
      forall k :: k !in moved && k !in SourcePaths(dir, moved) ==>
        (k in r <==> k in files) && (k in files ==> r[k] == files[k])
  {
    forall n | n in moved ensures PathIn(dir, n) !in moved {
      PathInIsNotEntryName(dir, n);
    }
  }

  /** The removal the loop makes when the destination exists, followed by the rename, is `MoveOne`. */
  lemma RemoveThenRename(files: FileMap, dir: string, name: string)
    requires PathIn(dir, name) in files && IsEntryName(name)
    ensures var cleared := if name in files then files - {name} else files;
      && PathIn(dir, name) in cleared && name !in cleared
      && (cleared - {PathIn(dir, name)})[name := cleared[PathIn(dir, name)]] == MoveOne(files, dir, name)
  {
    PathInIsNotEntryName(dir, name);
  }

  /** The names of a listing that the filter selects. */
  function Selected(listing: seq<string>): set<string> {
    set n | n in listing && IsGenerated(n)
  }

  lemma SelectedSnoc(listing: seq<string>, name: string)
    ensures Selected(listing + [name]) == Selected(listing) + (if IsGenerated(name) then {name} else {})
  {
  }

  /** `move_generated_files`: fails, touching nothing, when no entry matches the filter. */
  function MoveSpec(files: FileMap): Effect<bool> {
    var moved := Generated(files, SourceDir);
    if moved == {} then Effect(false, files) else Effect(true, Relocate(files, SourceDir, moved))
  }

  /** `compile_proto`: True iff protoc ran and exited with status 0; what it wrote stays either way. */
  function CompileSpec(files: FileMap, protoc: ProtocRun): Effect<bool> {
    match protoc
    case Unavailable => Effect(false, files)
    case Exited(status, outputs) => Effect(status == 0, files + outputs)
  }

  /** `generate_protos`: the steps in order, stopping at the first that fails. */
  function ProtosSpec(files: FileMap, o: ProtoOracle): Effect<bool> {
    if !o.installed then Effect(false, files)
    else
      var compiled := CompileSpec(files[ProtoPath := ProtoSchema], o.protoc);
      if !compiled.value then compiled else MoveSpec(compiled.files)
  }

  /** The move succeeds exactly when a selected entry existed; only selected entries move. */
  lemma MoveSelectsOnlyGenerated(files: FileMap, name: string)
    ensures MoveSpec(files).value <==> exists n :: InDir(files, SourceDir, n) && IsGenerated(n)
    ensures InDir(files, SourceDir, name) && !IsGenerated(name) ==>
      var r := MoveSpec(files).files;
      PathIn(SourceDir, name) in r && r[PathIn(SourceDir, name)] == files[PathIn(SourceDir, name)]
    ensures InDir(files, SourceDir, name) && IsGenerated(name) ==>
      var r := MoveSpec(files).files;
      name in r && r[name] == files[PathIn(SourceDir, name)] && PathIn(SourceDir, name) !in r
  {
    var moved := Generated(files, SourceDir);
    if exists n :: InDir(files, SourceDir, n) && IsGenerated(n) {
      var n :| InDir(files, SourceDir, n) && IsGenerated(n);
      assert n in moved;
    }
    if moved != {} {
      RelocateEffects(files, SourceDir, moved);
      if InDir(files, SourceDir, name) && !IsGenerated(name) {
        var p := PathIn(SourceDir, name);
        PathInIsNotEntryName(SourceDir, name);
        assert p !in moved;
        assert p !in SourcePaths(SourceDir, moved) by {
          forall n | n in moved ensures PathIn(SourceDir, n) != p {
            if PathIn(SourceDir, n) == p { PathInInjective(SourceDir, n, name); }
          }
        }
      }
    }
  }

  /**
    The pipeline stops at the first failing step: without the installation
    nothing is written; when protoc fails nothing is moved; and it succeeds
    only when every step did.
   */
  lemma PipelineStopsAtFirstFailure(files: FileMap, o: ProtoOracle)
    ensures !o.installed ==> ProtosSpec(files, o) == Effect(false, files)
    ensures o.installed && o.protoc.Unavailable? ==> ProtosSpec(files, o) == Effect(false, files[ProtoPath := ProtoSchema])
    ensures o.installed && o.protoc.Exited? && o.protoc.status != 0 ==>
      ProtosSpec(files, o) == Effect(false, files[ProtoPath := ProtoSchema] + o.protoc.outputs)
    ensures ProtosSpec(files, o).value <==>
      && o.installed && o.protoc.Exited? && o.protoc.status == 0
      && MoveSpec(files[ProtoPath := ProtoSchema] + o.protoc.outputs).value
  {
  }

  /**
    In the working directory the pipeline changes nothing but the generated
    modules: every other entry keeps its contents, and no entry is deleted.
   */
  lemma ProtosKeepsWorkingFiles(files: FileMap, o: ProtoOracle, name: string)
    requires IsEntryName(name)
    ensures name in files ==> name in ProtosSpec(files, o).files
    ensures !IsGenerated(name) ==> Agrees(files, ProtosSpec(files, o).files, name)
  {
    if o.installed {
      var written := files[ProtoPath := ProtoSchema];
      SchemaIsInPackage();
      if o.protoc.Exited? {
        if name in o.protoc.outputs {
          assert IsChildPath(SourceDir, name);
          ChildIsPathIn(SourceDir, name);
          PathInIsNotEntryName(SourceDir, name[|SourceDir| + 1..]);
        }
      }
      var compiled := CompileSpec(written, o.protoc);
      assert Agrees(files, compiled.files, name);
      if compiled.value {
        var moved := Generated(compiled.files, SourceDir);
        RelocateEffects(compiled.files, SourceDir, moved);
        assert name !in SourcePaths(SourceDir, moved) by {
          forall n | n in moved ensures PathIn(SourceDir, n) != name {
            PathInIsNotEntryName(SourceDir, n);
          }
        }
      }
    }
  }

  /** `generate_proto_file`: writes the schema and always answers the same path. */
  method GenerateProtoFile(disk: Disk) returns (path: string)
    modifies disk
    ensures path == ProtoPath
    ensures disk.files == old(disk.files)[ProtoPath := ProtoSchema]
  {
    path := ProtoPath;
    disk.Write(path, ProtoSchema);
  }

  /** `compile_proto`: `protoc` stands for the one run on the schema just written. */
  method CompileProto(disk: Disk, protoc: ProtocRun) returns (ok: bool)
    modifies disk
    ensures ok == CompileSpec(old(disk.files), protoc).value
    ensures disk.files == CompileSpec(old(disk.files), protoc).files
  {
    if protoc.Unavailable? {
      return false;
    }
    disk.files := disk.files + protoc.outputs;
    if protoc.status != 0 {
      return false;
    }
    return true;
  }

  method MoveGeneratedFiles(disk: Disk) returns (ok: bool)
    modifies disk
    ensures ok == MoveSpec(old(disk.files)).value
    ensures disk.files == MoveSpec(old(disk.files)).files
  {
    ghost var start := disk.files;
    var sourceDir := SourceDir;
    var filesMoved := false;
    var listing := disk.ListDir(sourceDir);
    ghost var moved: set<string> := {};
    for i := 0 to |listing|
      invariant moved == Selected(listing[..i])
      invariant forall n :: n in moved ==> InDir(start, SourceDir, n)
      invariant disk.files == Relocate(start, SourceDir, moved)
      invariant filesMoved <==> moved != {}
    {
      var file := listing[i];
      assert listing[..i + 1] == listing[..i] + [file];
      SelectedSnoc(listing[..i], file);
      if IsGenerated(file) {
        assert file !in moved;
        RelocateStep(start, SourceDir, moved, file);
        ghost var before := disk.files;
        RemoveThenRename(before, SourceDir, file);
        var sourcePath := PathIn(sourceDir, file);
        if file in disk.files {
          disk.Remove(file);
        }
        disk.Rename(sourcePath, file);
        assert disk.files == MoveOne(before, SourceDir, file);
        moved := moved + {file};
        filesMoved := true;
      }
    }
    assert listing[..|listing|] == listing;
    assert moved == Generated(start, SourceDir);
    if !filesMoved {
      return false;
    }
    return true;
  }

  /** The installation check is the oracle's `installed`; the package installer is not part of this model. */
  method RunGenerateProtos(disk: Disk, o: ProtoOracle) returns (ok: bool)
    modifies disk
    ensures ok == ProtosSpec(old(disk.files), o).value
    ensures disk.files == ProtosSpec(old(disk.files), o).files
  {
    if !o.installed {
      return false;
    }
    var _ := GenerateProtoFile(disk);
    ok := CompileProto(disk, o.protoc);
    if !ok {
      return false;
    }
    ok := MoveGeneratedFiles(disk);
    if !ok {
      return false;
    }
    return true;
  }
}
