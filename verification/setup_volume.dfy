/** Volume path derivation for a FoundryInstance (`setup_nfs_volume`). The
    environment variables and the mount check are inputs; the directories
    the step would create are returned instead of created. */
module SetupVolume {
  import opened Common

  const DefaultBackend: string := "nfs"
  const DefaultNfsBase: string := "/exports"
  const DefaultMountRoot: string := "/mnt/nfs-root"
  const MissingServer: string :=
    "NFS storage backend selected but NFS_SERVER_HOST environment variable is not set. "
    + "Either set NFS_SERVER_HOST to your NFS server address, or use storageBackend: pvc"

  /** The instance fields the step reads; None marks an absent key. */
  datatype VolumeRequest = VolumeRequest(name: Option<string>, storageBackend: Option<string>, nfsBasePath: Option<string>)

  /** `NFS_SERVER_HOST`, `NFS_BASE_PATH`, `NFS_MOUNT_ROOT`, and whether the
      mount root is a mount point. */
  datatype Environment = Environment(nfsServer: Option<string>, nfsBase: Option<string>, mountRoot: Option<string>, mounted: bool)

  /** The `volume-info.yaml` dict. */
  datatype VolumeInfo = VolumeInfo(nfsServer: Option<string>, dataPath: string, pluginPath: string, worldPath: string, storageBackend: string)

  datatype VolumeSetup = VolumeSetup(info: VolumeInfo, createdDirs: seq<string>)

  function Backend(req: VolumeRequest): string {
    req.storageBackend.GetOr(DefaultBackend)
  }

  /** `os.path.join(a, b)` on POSIX paths. */
  function PathJoin(a: string, b: string): (r: string)
    ensures StartsWith(b, "/") ==> r == b
    ensures !StartsWith(b, "/") ==> StartsWith(r, a)
  {
    if StartsWith(b, "/") then b
    else if a == "" || a[|a| - 1] == '/' then a + b
    else a + "/" + b
  }

  /** The instance data directory: `spec.nfsBasePath` when it is set and not
      the string "null", otherwise `<base>/instances/<name>`. */
  function DataPath(name: string, nfsBasePath: Option<string>, nfsBase: string): (p: string)
    ensures Provided(nfsBasePath) ==> p == nfsBasePath.value
    ensures !Provided(nfsBasePath) ==> p == nfsBase + "/instances/" + name
    ensures p != ""
  {
    if Provided(nfsBasePath) then nfsBasePath.value
    else nfsBase + "/instances/" + name
  }

  /** The data path with every occurrence of the base removed and leading
      slashes stripped. */
  function RelativeDataPath(dataPath: string, nfsBase: string): (rel: string)
    ensures !StartsWith(rel, "/")
    ensures |rel| <= |dataPath|
  {
    LStrip(RemoveAll(dataPath, nfsBase), '/')
  }

  function SetupNfsVolume(req: VolumeRequest, env: Environment): (r: Result<VolumeSetup>)
    ensures r.Failure? <==> req.name.None? || (Backend(req) == "nfs" && !Truthy(env.nfsServer))
    ensures req.name.Some? && r.Failure? ==> r.error == MissingServer
    ensures r.Success? ==>
      var base := env.nfsBase.GetOr(DefaultNfsBase);
      var info := r.value.info;
      && info.storageBackend == Backend(req)
      && info.nfsServer == env.nfsServer
      && info.dataPath == DataPath(req.name.value, req.nfsBasePath, base)
      && info.pluginPath == info.dataPath + "/Data/modules"
      && info.worldPath == info.dataPath + "/Data/worlds"
    ensures r.Success? ==>
      (r.value.createdDirs != [] <==> Backend(req) == "nfs" && env.mounted)
    ensures r.Success? ==>
      forall i :: 0 <= i < |r.value.createdDirs| ==> StartsWith(r.value.createdDirs[i], env.mountRoot.GetOr(DefaultMountRoot))
  {
    if req.name.None? then Failure("KeyError: name")
    else
      var backend := Backend(req);
      if backend == "nfs" && !Truthy(env.nfsServer) then Failure(MissingServer)
      else
        var base := env.nfsBase.GetOr(DefaultNfsBase);
        var dataPath := DataPath(req.name.value, req.nfsBasePath, base);
        var root := env.mountRoot.GetOr(DefaultMountRoot);
        var created :=
          if backend == "nfs" && env.mounted then
            var rel := PathJoin(root, RelativeDataPath(dataPath, base));
            JoinedUnder(root, RelativeDataPath(dataPath, base));
            [PathJoin(PathJoin(rel, "Data"), "modules"), PathJoin(PathJoin(rel, "Data"), "worlds")]
          else [];
        Success(VolumeSetup(VolumeInfo(env.nfsServer, dataPath, dataPath + "/Data/modules", dataPath + "/Data/worlds", backend), created))
  }

  /** Joining relative pieces onto the mount root stays under the root. */
  lemma JoinedUnder(root: string, rel: string)
    requires !StartsWith(rel, "/")
    ensures StartsWith(PathJoin(PathJoin(PathJoin(root, rel), "Data"), "modules"), root)
    ensures StartsWith(PathJoin(PathJoin(PathJoin(root, rel), "Data"), "worlds"), root)
  {
    var p := PathJoin(root, rel);
    var q := PathJoin(p, "Data");
    assert "Data"[..1] == "D" && "modules"[..1] == "m" && "worlds"[..1] == "w";
    PrefixTransitive(root, p, q);
    PrefixTransitive(root, q, PathJoin(q, "modules"));
    PrefixTransitive(root, q, PathJoin(q, "worlds"));
  }

  lemma PrefixTransitive(a: string, b: string, c: string)
    requires StartsWith(b, a) && StartsWith(c, b)
    ensures StartsWith(c, a)
  {
    assert c[..|a|] == c[..|b|][..|a|];
  }

  /** A PVC-backed instance needs no NFS server, and gets the same paths. */
  lemma PvcNeedsNoServer(name: string, nfsBasePath: Option<string>, env: Environment)
    ensures SetupNfsVolume(VolumeRequest(Some(name), Some("pvc"), nfsBasePath), env).Success?
    ensures SetupNfsVolume(VolumeRequest(Some(name), Some("pvc"), nfsBasePath), env).value.createdDirs == []
  {
  }

  /** Without a configured path the data lives under `/exports/instances/<name>`. */
  lemma DefaultLayout(name: string, server: string)
    requires server != ""
    ensures var r := SetupNfsVolume(VolumeRequest(Some(name), None, None), Environment(Some(server), None, None, false));
      && r.Success?
      && r.value.info.dataPath == "/exports/instances/" + name
      && r.value.info.pluginPath == "/exports/instances/" + name + "/Data/modules"
      && r.value.info.storageBackend == "nfs"
  {
  }
}
