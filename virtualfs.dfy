// The virtual file system's mount table: paths of the form [/]alias/rest are
// matched against mounted aliases and turned into disk paths; local and
// remote mounts are added with duplicate checks; read and write requests
// are queued for the disk worker or the remote service; and changed files
// are collected, without repeats, for the remote client to pick up.
//
// Strings stand for C strings without their terminator.

module VirtualFs {
  import opened Wrappers

  /** VfsMountType; NoMount is what a lookup reports for a path under no mount. */
  datatype MountType = NoMount | Local | Remote | PackageBundle

  datatype MountPoint = MountPoint(mountType: MountType, watchId: nat, path: string, alias: string)

  /** The index of the first element the predicate accepts (Array::FindIf). */
  function FindIf<T>(s: seq<T>, p: T -> bool): (r: Option<nat>)
    ensures r.Some? ==> r.value < |s| && p(s[r.value]) && forall k :: 0 <= k < r.value ==> !p(s[k])
    ensures r.None? ==> forall k :: 0 <= k < |s| ==> !p(s[k])
  {
    if s == [] then None
    else if p(s[0]) then Some(0)
    else
      match FindIf(s[1..], p)
      case None => None
      case Some(i) => Some(i + 1)
  }

  // ---------------------------------------------------------------------------------
  // Matching paths against mounts

  /** One leading '/' is ignored when a path is matched against the mounts. */
  function SkipRootSlash(path: string): string
  {
    if |path| > 0 && path[0] == '/' then path[1..] else path
  }

  /** Whether a path lies under an alias: the alias is a prefix of it and a '/' follows. */
  predicate UnderAlias(path: string, alias: string)
  {
    |alias| < |path| && path[..|alias|] == alias && path[|alias|] == '/'
  }

  /** The first mount whose alias the path (less one leading '/') lies under. */
  function FindMount(mounts: seq<MountPoint>, path: string): (r: Option<nat>)
    ensures r.Some? ==> r.value < |mounts| && UnderAlias(SkipRootSlash(path), mounts[r.value].alias)
    ensures r.Some? ==> forall k :: 0 <= k < r.value ==> !UnderAlias(SkipRootSlash(path), mounts[k].alias)
    ensures r.None? ==> forall k :: 0 <= k < |mounts| ==> !UnderAlias(SkipRootSlash(path), mounts[k].alias)
  {
    FindIf(mounts, (m: MountPoint) => UnderAlias(SkipRootSlash(path), m.alias))
  }

  /** The type of the mount a path lies under, NoMount when there is none. */
  function GetMountType(mounts: seq<MountPoint>, path: string): (r: MountType)
    ensures (forall k :: 0 <= k < |mounts| ==> !UnderAlias(SkipRootSlash(path), mounts[k].alias)) ==> r == NoMount
    ensures forall k :: 0 <= k < |mounts| && UnderAlias(SkipRootSlash(path), mounts[k].alias) &&
                        (forall j :: 0 <= j < k ==> !UnderAlias(SkipRootSlash(path), mounts[j].alias)) ==>
                        r == mounts[k].mountType
  {
    var idx := FindMount(mounts, path);
    if idx.Some? then mounts[idx.value].mountType else NoMount
  }

  /** The outcome of StripMountPath: whether a mount matched, and the path it leaves. */
  datatype Stripped = Stripped(found: bool, rest: string)

  /**
   * Removes the leading '/' and the alias of the mount a path lies under,
   * leaving the part that starts with '/'; an unmounted path is kept as it is.
   */
  function StripMountPath(mounts: seq<MountPoint>, path: string): (r: Stripped)
    ensures r.found <==> exists k :: 0 <= k < |mounts| && UnderAlias(SkipRootSlash(path), mounts[k].alias)
    ensures r.found ==> |r.rest| > 0 && r.rest[0] == '/'
    ensures r.found ==> SkipRootSlash(path) == mounts[FindMount(mounts, path).value].alias + r.rest
    ensures !r.found ==> r.rest == path
  {
    var idx := FindMount(mounts, path);
    if idx.Some? then
      var p := SkipRootSlash(path);
      var alias := mounts[idx.value].alias;
      assert p == alias + p[|alias|..];
      Stripped(true, p[|alias|..])
    else
      Stripped(false, path)
  }

  /** A path made of a mount's alias and a '/'-led remainder strips back to that remainder. */
  lemma StripAliasPath(mounts: seq<MountPoint>, k: nat, rest: string)
    requires k < |mounts| && |rest| > 0 && rest[0] == '/'
    requires forall j :: 0 <= j < k ==> !UnderAlias(mounts[k].alias + rest, mounts[j].alias)
    ensures StripMountPath(mounts, "/" + mounts[k].alias + rest) == Stripped(true, rest)
    ensures GetMountType(mounts, "/" + mounts[k].alias + rest) == mounts[k].mountType
  {
    var alias := mounts[k].alias;
    var path := "/" + alias + rest;
    assert SkipRootSlash(path) == alias + rest;
    assert (alias + rest)[..|alias|] == alias;
    assert (alias + rest)[|alias|] == '/';
    assert FindMount(mounts, path) == Some(k);
    assert (alias + rest)[|alias|..] == rest;
  }

  /** Where _ResolveDiskPath found the file: the mount's index and the joined disk path. */
  datatype Resolved = Resolved(index: nat, diskPath: string)

  /**
   * Turns a mounted path into a disk path by joining the mount's root with the
   * path the alias leaves. Absolute paths and unmounted paths give nothing.
   * The join (PathUtils::JoinUnixStyle) is a parameter.
   */
  function ResolveDiskPath(mounts: seq<MountPoint>, path: string, absolutePath: bool,
                           join: (string, string) -> string): (r: Option<Resolved>)
    ensures absolutePath ==> r.None?
    ensures !absolutePath ==> (r.Some? <==> StripMountPath(mounts, path).found)
    ensures r.Some? ==> r.value.index < |mounts| && r.value.index == FindMount(mounts, path).value &&
                        r.value.diskPath == join(mounts[r.value.index].path, StripMountPath(mounts, path).rest)
  {
    if absolutePath then None
    else
      var idx := FindMount(mounts, path);
      if idx.None? then None
      else
        var p := SkipRootSlash(path);
        Some(Resolved(idx.value, join(mounts[idx.value].path, p[|mounts[idx.value].alias|..])))
  }

  // ---------------------------------------------------------------------------------
  // The mount list's invariant

  /** The root path with one trailing '/' removed. */
  function TrimTrailingSlash(path: string): (r: string)
    ensures |path| > 0 && path[|path| - 1] == '/' ==> path == r + "/"
    ensures !(|path| > 0 && path[|path| - 1] == '/') ==> r == path
  {
    if |path| > 0 && path[|path| - 1] == '/' then path[..|path| - 1] else path
  }

  /**
   * What the mount functions keep: a local mount shares neither alias nor root
   * with any mount added before it, and no two remote mounts share an alias.
   */
  ghost predicate MountsDistinct(mounts: seq<MountPoint>)
  {
    forall i, j :: 0 <= i < j < |mounts| ==>
      (mounts[j].mountType == Local ==> mounts[j].alias != mounts[i].alias && mounts[j].path != mounts[i].path) &&
      (mounts[j].mountType == Remote && mounts[i].mountType == Remote ==> mounts[j].alias != mounts[i].alias)
  }

  /**
   * Two local mounts never share an alias or a root, and two remote mounts
   * never share an alias; a remote mount may reuse a local mount's alias.
   */
  lemma SameTypeMountsDiffer(mounts: seq<MountPoint>, i: nat, j: nat)
    requires MountsDistinct(mounts) && i < |mounts| && j < |mounts| && i != j
    ensures mounts[i].mountType == Local && mounts[j].mountType == Local ==>
              mounts[i].alias != mounts[j].alias && mounts[i].path != mounts[j].path
    ensures mounts[i].mountType == Remote && mounts[j].mountType == Remote ==> mounts[i].alias != mounts[j].alias
  {
  }

  // ---------------------------------------------------------------------------------
  // Requests

  datatype Command = Read | Write | Info

  /** A queued file request: the mount type it was routed by, what to do and the path. */
  datatype Request = Request(mountType: MountType, cmd: Command, path: string)

  /** Where ReadFileAsync and WriteFileAsync send a request. */
  datatype Route = ToRemote | Dropped | ToDisk(mountType: MountType)

  /**
   * A path under a remote mount goes to the remote service when it is
   * connected and is dropped (with a warning) when it is not; every other path
   * goes to the disk worker, tagged with its mount's type or Local.
   */
  function RouteRequest(mounts: seq<MountPoint>, path: string, connected: bool): (r: Route)
    ensures r == ToRemote <==> GetMountType(mounts, path) == Remote && connected
    ensures r == Dropped <==> GetMountType(mounts, path) == Remote && !connected
    ensures (forall k :: 0 <= k < |mounts| ==> !UnderAlias(SkipRootSlash(path), mounts[k].alias)) ==> r == ToDisk(Local)
    ensures forall k :: (0 <= k < |mounts| && UnderAlias(SkipRootSlash(path), mounts[k].alias) &&
                         (forall j :: 0 <= j < k ==> !UnderAlias(SkipRootSlash(path), mounts[j].alias)) &&
                         mounts[k].mountType != Remote) ==> r == ToDisk(mounts[k].mountType)
  {
    var idx := FindMount(mounts, path);
    if idx.Some? && mounts[idx.value].mountType == Remote then
      if connected then ToRemote else Dropped
    else
      ToDisk(if idx.Some? then mounts[idx.value].mountType else Local)
  }

  /** Push to the back of a queue. */
  function PushRequest(q: seq<Request>, r: Request): (q': seq<Request>)
    ensures |q'| == |q| + 1 && q'[..|q|] == q && q'[|q|] == r
  {
    q + [r]
  }

  /** PopFirst: the front request and the queue behind it, or nothing when empty. */
  datatype Popped = Popped(request: Option<Request>, queue: seq<Request>)

  function PopFirst(q: seq<Request>): (r: Popped)
    ensures q == [] ==> r == Popped(None, [])
    ensures q != [] ==> r.request == Some(q[0]) && [q[0]] + r.queue == q
  {
    if q == [] then Popped(None, []) else Popped(Some(q[0]), q[1..])
  }

  /** A sequence of pushes and pops on a request queue. */
  datatype QueueOp = PushOp(request: Request) | PopOp

  function Pushed(ops: seq<QueueOp>): seq<Request>
  {
    if ops == [] then []
    else (if ops[0].PushOp? then [ops[0].request] else []) + Pushed(ops[1..])
  }

  /** The requests left in a queue and the ones taken, in the order they were taken. */
  datatype QueueRun = QueueRun(remaining: seq<Request>, taken: seq<Request>)

  function RunQueue(q: seq<Request>, ops: seq<QueueOp>): QueueRun
    decreases |ops|
  {
    if ops == [] then QueueRun(q, [])
    else if ops[0].PushOp? then RunQueue(PushRequest(q, ops[0].request), ops[1..])
    else if q == [] then RunQueue(q, ops[1..])
    else
      var run := RunQueue(q[1..], ops[1..]);
      QueueRun(run.remaining, [q[0]] + run.taken)
  }

  /**
   * The queues are first in, first out: whatever the interleaving of pushes
   * and pops, the requests are taken in the order they were queued.
   */
  lemma {:induction false} QueueIsFifo(q: seq<Request>, ops: seq<QueueOp>)
    ensures RunQueue(q, ops).taken + RunQueue(q, ops).remaining == q + Pushed(ops)
    decreases |ops|
  {
    if ops != [] {
      if ops[0].PushOp? {
        QueueIsFifo(PushRequest(q, ops[0].request), ops[1..]);
        FifoPushStep(q, ops);
      } else if q == [] {
        QueueIsFifo(q, ops[1..]);
        FifoPopEmptyStep(ops);
      } else {
        QueueIsFifo(q[1..], ops[1..]);
        FifoPopFrontStep(q, ops);
      }
    }
  }

  lemma FifoPushStep(q: seq<Request>, ops: seq<QueueOp>)
    requires ops != [] && ops[0].PushOp?
    requires var q' := PushRequest(q, ops[0].request);
             RunQueue(q', ops[1..]).taken + RunQueue(q', ops[1..]).remaining == q' + Pushed(ops[1..])
    ensures RunQueue(q, ops).taken + RunQueue(q, ops).remaining == q + Pushed(ops)
  {
    assert Pushed(ops) == [ops[0].request] + Pushed(ops[1..]);
    assert PushRequest(q, ops[0].request) + Pushed(ops[1..]) == q + Pushed(ops);
  }

  lemma FifoPopEmptyStep(ops: seq<QueueOp>)
    requires ops != [] && ops[0].PopOp?
    requires RunQueue([], ops[1..]).taken + RunQueue([], ops[1..]).remaining == Pushed(ops[1..])
    ensures RunQueue([], ops).taken + RunQueue([], ops).remaining == Pushed(ops)
  {
    assert RunQueue([], ops) == RunQueue([], ops[1..]);
    assert Pushed(ops) == [] + Pushed(ops[1..]);
  }

  lemma FifoPopFrontStep(q: seq<Request>, ops: seq<QueueOp>)
    requires ops != [] && ops[0].PopOp? && q != []
    requires RunQueue(q[1..], ops[1..]).taken + RunQueue(q[1..], ops[1..]).remaining == q[1..] + Pushed(ops[1..])
    ensures RunQueue(q, ops).taken + RunQueue(q, ops).remaining == q + Pushed(ops)
  {
    var run := RunQueue(q[1..], ops[1..]);
    var pushed := Pushed(ops[1..]);
    RunQueuePopFront(q, ops);
    assert Pushed(ops) == pushed by {
      assert Pushed(ops) == [] + pushed;
    }
    ConsRegroup(q[0], run.taken, run.remaining, q[1..], pushed);
    assert [q[0]] + q[1..] == q;
    assert RunQueue(q, ops).taken + RunQueue(q, ops).remaining == ([q[0]] + run.taken) + run.remaining;
  }

  lemma RunQueuePopFront(q: seq<Request>, ops: seq<QueueOp>)
    requires ops != [] && ops[0].PopOp? && q != []
    ensures RunQueue(q, ops) == QueueRun(RunQueue(q[1..], ops[1..]).remaining, [q[0]] + RunQueue(q[1..], ops[1..]).taken)
  {
  }

  lemma ConsRegroup<T>(x: T, a: seq<T>, b: seq<T>, c: seq<T>, d: seq<T>)
    requires a + b == c + d
    ensures ([x] + a) + b == ([x] + c) + d
  {
    assert ([x] + a) + b == [x] + (a + b);
    assert ([x] + c) + d == [x] + (c + d);
  }

  /** The first request for a path, found by FindIf. */
  function FindRequest(q: seq<Request>, path: string): (r: Option<nat>)
    ensures r.Some? ==> r.value < |q| && q[r.value].path == path && forall k :: 0 <= k < r.value ==> q[k].path != path
    ensures r.None? ==> forall k :: 0 <= k < |q| ==> q[k].path != path
  {
    FindIf(q, (req: Request) => req.path == path)
  }

  // ---------------------------------------------------------------------------------
  // The file-change message: the number of changes, then each path as its
  // length followed by its characters.

  /** One field of a message: a 32-bit word or one character. */
  datatype Field = Word(value: nat) | Char(c: char)

  function EncodeString(s: string): (r: seq<Field>)
    ensures |r| == |s| + 1 && r[0] == Word(|s|) && forall i :: 0 <= i < |s| ==> r[i + 1] == Char(s[i])
  {
    [Word(|s|)] + seq(|s|, i requires 0 <= i < |s| => Char(s[i]))
  }

  function EncodePaths(paths: seq<string>): seq<Field>
  {
    if paths == [] then [] else EncodeString(paths[0]) + EncodePaths(paths[1..])
  }

  function EncodeChanges(paths: seq<string>): seq<Field>
  {
    [Word(|paths|)] + EncodePaths(paths)
  }

  /** A decoded value and the fields after it. */
  datatype Parsed<T> = Parsed(value: T, rest: seq<Field>)

  /** Reads a length word and that many characters. */
  function DecodeString(msg: seq<Field>): (r: Option<Parsed<string>>)
    ensures r.Some? ==> EncodeString(r.value.value) + r.value.rest == msg
  {
    if msg == [] || !msg[0].Word? || |msg| < 1 + msg[0].value then None
    else
      var n := msg[0].value;
      if forall i :: 1 <= i <= n ==> msg[i].Char? then
        var s := seq(n, i requires 0 <= i < n => msg[i + 1].c);
        assert EncodeString(s) == msg[..n + 1];
        Some(Parsed(s, msg[n + 1..]))
      else None
  }

  /** Reads `count` strings one after another. */
  function DecodePaths(msg: seq<Field>, count: nat): Option<Parsed<seq<string>>>
    decreases count
  {
    if count == 0 then Some(Parsed([], msg))
    else
      match DecodeString(msg)
      case None => None
      case Some(first) =>
        match DecodePaths(first.rest, count - 1)
        case None => None
        case Some(others) => Some(Parsed([first.value] + others.value, others.rest))
  }

  /** Reads the count word and the paths after it; fields after the last path are not read. */
  function DecodeChanges(msg: seq<Field>): Option<seq<string>>
  {
    if msg == [] || !msg[0].Word? then None
    else
      match DecodePaths(msg[1..], msg[0].value)
      case None => None
      case Some(p) => Some(p.value)
  }

  lemma DecodeEncodedString(s: string, tail: seq<Field>)
    ensures DecodeString(EncodeString(s) + tail) == Some(Parsed(s, tail))
  {
    var msg := EncodeString(s) + tail;
    assert msg[|s| + 1..] == tail;
    assert seq(|s|, i requires 0 <= i < |s| => msg[i + 1].c) == s;
  }

  lemma {:induction false} DecodeEncodedPaths(paths: seq<string>, tail: seq<Field>)
    ensures DecodePaths(EncodePaths(paths) + tail, |paths|) == Some(Parsed(paths, tail))
    decreases |paths|
  {
    if paths != [] {
      var rest := EncodePaths(paths[1..]) + tail;
      assert EncodePaths(paths) + tail == EncodeString(paths[0]) + rest;
      DecodeEncodedString(paths[0], rest);
      DecodeEncodedPaths(paths[1..], tail);
      assert DecodePaths(rest, |paths| - 1) == Some(Parsed(paths[1..], tail));
      assert [paths[0]] + paths[1..] == paths;
    } else {
      assert EncodePaths(paths) + tail == tail;
    }
  }

  /** The client reads back exactly the paths the server wrote. */
  lemma DecodeEncodedChanges(paths: seq<string>)
    ensures DecodeChanges(EncodeChanges(paths)) == Some(paths)
  {
    DecodeEncodedPaths(paths, []);
    assert EncodeChanges(paths)[1..] == EncodePaths(paths) + [];
  }

  /** The server callback's loop: the count, then each path's length and characters. */
  method WriteChanges(paths: seq<string>) returns (msg: seq<Field>)
    ensures msg == EncodeChanges(paths)
  {
    msg := [Word(|paths|)];
    for i := 0 to |paths|
      invariant msg + EncodePaths(paths[i..]) == EncodeChanges(paths)
    {
      assert EncodePaths(paths[i..]) == EncodeString(paths[i]) + EncodePaths(paths[i + 1..]);
      msg := msg + EncodeString(paths[i]);
    }
    assert paths[|paths|..] == [];
  }

  /** Whether a changed path lies under a watched remote mount. */
  predicate WatchedRemotely(mounts: seq<MountPoint>, path: string)
  {
    var idx := FindMount(mounts, path);
    idx.Some? && mounts[idx.value].mountType == Remote && mounts[idx.value].watchId != 0
  }

  /** The changed paths reported to the file-change callbacks, in order. */
  function WatchedChanges(mounts: seq<MountPoint>, paths: seq<string>): (r: seq<string>)
    ensures forall p :: p in r <==> p in paths && WatchedRemotely(mounts, p)
    ensures |r| <= |paths|
  {
    if paths == [] then []
    else
      var rest := WatchedChanges(mounts, paths[1..]);
      assert forall p :: p in paths <==> p == paths[0] || p in paths[1..];
      if WatchedRemotely(mounts, paths[0]) then [paths[0]] + rest else rest
  }

  /**
   * The client callback's loop: for each changed path, the callbacks run when
   * the path lies under a remote mount that is watched.
   */
  method NotifyRemoteChanges(mounts: seq<MountPoint>, paths: seq<string>) returns (notified: seq<string>)
    ensures notified == WatchedChanges(mounts, paths)
  {
    notified := [];
    var i := |paths|;
    while i > 0
      invariant 0 <= i <= |paths|
      invariant notified == WatchedChanges(mounts, paths[i..])
    {
      i := i - 1;
      assert paths[i..][1..] == paths[i + 1..];
      if WatchedRemotely(mounts, paths[i]) {
        notified := [paths[i]] + notified;
      }
    }
  }

  /** No two recorded changes have the same path hash. */
  ghost predicate HashesDistinct(changes: seq<string>, hash: string -> nat)
  {
    forall i, j :: 0 <= i < j < |changes| ==> hash(changes[i]) != hash(changes[j])
  }

  // ---------------------------------------------------------------------------------
  // The file system's state

  /**
   * The virtual file system (VfsManager): its mounts, the disk worker's and
   * the remote service's request queues, and the changed files waiting for
   * the remote client. The path hash (Hash::Fnv32Str) is a parameter.
   */
  class FileSystem {
    var mounts: seq<MountPoint>
    var asyncRequests: seq<Request>
    var remoteRequests: seq<Request>
    var fileChanges: seq<string>
    const pathHash: string -> nat

    ghost predicate Valid()
      reads this
    {
      MountsDistinct(mounts) && HashesDistinct(fileChanges, pathHash)
    }

    constructor (pathHash: string -> nat)
      ensures Valid() && this.pathHash == pathHash
      ensures mounts == [] && asyncRequests == [] && remoteRequests == [] && fileChanges == []
    {
      this.pathHash := pathHash;
      mounts, asyncRequests, remoteRequests, fileChanges := [], [], [], [];
    }

    /**
     * Mounts a local directory under an alias. The directory check, the
     * absolute Unix form of the root and the watch id are inputs; the root
     * loses one trailing '/'. A mount whose alias or root is already mounted
     * is refused and nothing changes.
     */
    method MountLocal(isDir: bool, absoluteRoot: string, alias: string, watchId: nat) returns (ok: bool)
      requires Valid()
      modifies this
      ensures Valid()
      ensures ok <==> isDir && forall k :: 0 <= k < |old(mounts)| ==>
                        old(mounts)[k].alias != alias && old(mounts)[k].path != TrimTrailingSlash(absoluteRoot)
      ensures ok ==> mounts == old(mounts) + [MountPoint(Local, watchId, TrimTrailingSlash(absoluteRoot), alias)]
      ensures !ok ==> mounts == old(mounts)
      ensures asyncRequests == old(asyncRequests) && remoteRequests == old(remoteRequests) && fileChanges == old(fileChanges)
    {
      if !isDir {
        return false;
      }
      var mount := MountPoint(Local, watchId, TrimTrailingSlash(absoluteRoot), alias);
      if FindIf(mounts, (m: MountPoint) => mount.alias == m.alias || mount.path == m.path).Some? {
        return false;
      }
      mounts := mounts + [mount];
      ok := true;
    }

    /**
     * Mounts the remote service under an alias, with the service's URL as its
     * path; a second remote mount with the same alias is refused.
     */
    method MountRemote(alias: string, url: string, watch: bool) returns (ok: bool)
      requires Valid()
      modifies this
      ensures Valid()
      ensures ok <==> forall k :: 0 <= k < |old(mounts)| ==>
                        !(old(mounts)[k].mountType == Remote && old(mounts)[k].alias == alias)
      ensures ok ==> mounts == old(mounts) + [MountPoint(Remote, if watch then 1 else 0, url, alias)]
      ensures !ok ==> mounts == old(mounts)
      ensures asyncRequests == old(asyncRequests) && remoteRequests == old(remoteRequests) && fileChanges == old(fileChanges)
    {
      if FindIf(mounts, (m: MountPoint) => m.mountType == Remote && m.alias == alias).Some? {
        return false;
      }
      mounts := mounts + [MountPoint(Remote, if watch then 1 else 0, url, alias)];
      ok := true;
    }

    /** Queues a request where RouteRequest sends it. */
    method Submit(cmd: Command, path: string, connected: bool)
      modifies this
      ensures mounts == old(mounts) && fileChanges == old(fileChanges)
      ensures match RouteRequest(mounts, path, connected)
        case ToRemote =>
          remoteRequests == PushRequest(old(remoteRequests), Request(Remote, cmd, path)) && asyncRequests == old(asyncRequests)
        case Dropped =>
          remoteRequests == old(remoteRequests) && asyncRequests == old(asyncRequests)
        case ToDisk(t) =>
          asyncRequests == PushRequest(old(asyncRequests), Request(t, cmd, path)) && remoteRequests == old(remoteRequests)
    {
      var idx := FindMount(mounts, path);
      if idx.Some? && mounts[idx.value].mountType == Remote {
        if connected {
          remoteRequests := PushRequest(remoteRequests, Request(Remote, cmd, path));
        }
      } else {
        var t := if idx.Some? then mounts[idx.value].mountType else Local;
        asyncRequests := PushRequest(asyncRequests, Request(t, cmd, path));
      }
    }

    method ReadFileAsync(path: string, connected: bool)
      modifies this
      ensures mounts == old(mounts) && fileChanges == old(fileChanges)
      ensures match RouteRequest(mounts, path, connected)
        case ToRemote =>
          remoteRequests == PushRequest(old(remoteRequests), Request(Remote, Read, path)) && asyncRequests == old(asyncRequests)
        case Dropped =>
          remoteRequests == old(remoteRequests) && asyncRequests == old(asyncRequests)
        case ToDisk(t) =>
          asyncRequests == PushRequest(old(asyncRequests), Request(t, Read, path)) && remoteRequests == old(remoteRequests)
    {
      Submit(Read, path, connected);
    }

    method WriteFileAsync(path: string, connected: bool)
      modifies this
      ensures mounts == old(mounts) && fileChanges == old(fileChanges)
      ensures match RouteRequest(mounts, path, connected)
        case ToRemote =>
          remoteRequests == PushRequest(old(remoteRequests), Request(Remote, Write, path)) && asyncRequests == old(asyncRequests)
        case Dropped =>
          remoteRequests == old(remoteRequests) && asyncRequests == old(asyncRequests)
        case ToDisk(t) =>
          asyncRequests == PushRequest(old(asyncRequests), Request(t, Write, path)) && remoteRequests == old(remoteRequests)
    {
      Submit(Write, path, connected);
    }

    /** The disk worker takes the oldest request, if any. */
    method NextAsyncRequest() returns (r: Option<Request>)
      modifies this
      ensures r == PopFirst(old(asyncRequests)).request && asyncRequests == PopFirst(old(asyncRequests)).queue
      ensures mounts == old(mounts) && remoteRequests == old(remoteRequests) && fileChanges == old(fileChanges)
    {
      var p := PopFirst(asyncRequests);
      r, asyncRequests := p.request, p.queue;
    }

    /**
     * A remote reply takes the first waiting request for its path out of the
     * remote queue; there is none when no request has that path.
     */
    method PopRemoteRequest(path: string) returns (r: Option<Request>)
      modifies this
      ensures r.None? <==> forall k :: 0 <= k < |old(remoteRequests)| ==> old(remoteRequests)[k].path != path
      ensures r.Some? ==> r == Some(old(remoteRequests)[FindRequest(old(remoteRequests), path).value])
      ensures r.Some? ==> var i := FindRequest(old(remoteRequests), path).value;
                          remoteRequests == old(remoteRequests)[..i] + old(remoteRequests)[i + 1..]
      ensures r.Some? ==> multiset(remoteRequests) + multiset{r.value} == multiset(old(remoteRequests))
      ensures r.None? ==> remoteRequests == old(remoteRequests)
      ensures mounts == old(mounts) && asyncRequests == old(asyncRequests) && fileChanges == old(fileChanges)
    {
      var idx := FindRequest(remoteRequests, path);
      if idx.None? {
        return None;
      }
      var i := idx.value;
      r := Some(remoteRequests[i]);
      assert remoteRequests == remoteRequests[..i] + [remoteRequests[i]] + remoteRequests[i + 1..];
      remoteRequests := remoteRequests[..i] + remoteRequests[i + 1..];
    }

    /** Records a changed file unless a change with the same path hash is already waiting. */
    method RecordFileChange(path: string)
      requires Valid()
      modifies this
      ensures Valid()
      ensures (exists k :: 0 <= k < |old(fileChanges)| && pathHash(old(fileChanges)[k]) == pathHash(path)) ==>
                fileChanges == old(fileChanges)
      ensures (forall k :: 0 <= k < |old(fileChanges)| ==> pathHash(old(fileChanges)[k]) != pathHash(path)) ==>
                fileChanges == old(fileChanges) + [path]
      ensures mounts == old(mounts) && asyncRequests == old(asyncRequests) && remoteRequests == old(remoteRequests)
    {
      var h := pathHash(path);
      if FindIf(fileChanges, (e: string) => pathHash(e) == h).None? {
        fileChanges := fileChanges + [path];
      }
    }

    /** The server callback: writes every waiting change into a message and empties the list. */
    method TakeFileChanges() returns (msg: seq<Field>)
      requires Valid()
      modifies this
      ensures Valid() && msg == EncodeChanges(old(fileChanges)) && fileChanges == []
      ensures mounts == old(mounts) && asyncRequests == old(asyncRequests) && remoteRequests == old(remoteRequests)
    {
      msg := WriteChanges(fileChanges);
      fileChanges := [];
    }
  }
}
