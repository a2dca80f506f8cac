/** The directories QEMU exports and the ones the guest is told to mount: `plan9_fs_args`,
    `vmconfig_args`, `setup_vm`. */
module MountTags {
  import opened Messages
  import opened Text
  import opened Config
  import opened Mounts
  import KernelArgs
  import opened Paths

  const SHARED_TAG := "vmtest-shared"
  const SHARED_ID := "shared"
  const SHARED_PATH := "/mnt/vmtest"
  const MOUNT := "mount"
  const ROOT_TAG := "/dev/root"
  const ROOT_ID := "root"

  datatype Export = Export(id: string, path: string, tag: string, ro: bool)

  /** What `mount_in_guest` is asked to mount, and where. */
  datatype Request = Request(guestPath: string, tag: string, ro: bool)

  /** The hash of a path: paths with the same components are equal and hash alike. */
  type Hash = seq<Component> -> nat

  /** The tag of a mount: its host path, hashed. */
  function TagOf(hash: Hash, hostPath: string): string {
    MOUNT + Decimal(hash(Components(hostPath)))
  }

  function ExportOf(hash: Hash, m: Mount): Export {
    Export(TagOf(hash, m.hostPath), m.hostPath, TagOf(hash, m.hostPath), !m.writable)
  }

  function RequestOf(hash: Hash, guestPath: string, m: Mount): Request {
    Request(guestPath, TagOf(hash, m.hostPath), !m.writable)
  }

  function SharedExport(base: string): Export {
    Export(SHARED_ID, base, SHARED_TAG, false)
  }

  function RootExport(rootfs: string): Export {
    Export(ROOT_ID, rootfs, ROOT_TAG, false)
  }

  const SHARED_REQUEST := Request(SHARED_PATH, SHARED_TAG, false)

  // ------------------------------------------------------------- QEMU arguments

  const LOCAL := "local"
  const ID := "id="
  const PATH := "path="
  const MOUNT_TAG := "mount_tag="
  const SECURITY := "security_model=none"
  const MULTIDEVS := "multidevs=remap"
  const READONLY := "readonly=on"

  /** The path exported for an empty one, which stands for the current directory. */
  function ExportedPath(p: string): string {
    if p == "" then "." else p
  }

  /** The settings of an export, as QEMU is to understand them. */
  function Settings(e: Export): seq<string> {
    [LOCAL, ID + e.id, PATH + ExportedPath(e.path), MOUNT_TAG + e.tag, SECURITY, MULTIDEVS]
    + if e.ro then [READONLY] else []
  }

  function JoinWithCommas(words: seq<string>): string {
    if words == [] then ""
    else if |words| == 1 then words[0]
    else JoinWithCommas(words[..|words| - 1]) + [','] + words[|words| - 1]
  }

  lemma JoinOneMore(words: seq<string>, w: string)
    requires words != []
    ensures JoinWithCommas(words + [w]) == JoinWithCommas(words) + [','] + w
  {
    assert (words + [w])[..|words|] == words;
  }

  predicate HasComma(s: string) {
    exists c :: c in s && IsComma(c)
  }

  /** Joined words split back into themselves exactly if none holds a comma. */
  lemma {:induction false} JoinedPieces(words: seq<string>)
    requires words != []
    ensures |SplitBy(JoinWithCommas(words), IsComma)| >= |words|
    ensures SplitBy(JoinWithCommas(words), IsComma) == words <==> forall w | w in words :: !HasComma(w)
  {
    var n := |words| - 1;
    var before, last := words[..n], words[n];
    assert words == before + [last];
    SeparatorMeansTwoPieces(last, IsComma);
    if !HasComma(last) { SplitWithoutSeparator(last, IsComma); }
    if n > 0 {
      SplitAtSeparator(JoinWithCommas(before), ',', last, IsComma);
      JoinedPieces(before);
      PiecesMatch(SplitBy(JoinWithCommas(before), IsComma), SplitBy(last, IsComma), before, last);
    }
  }

  lemma PiecesMatch(x: seq<string>, y: seq<string>, before: seq<string>, last: string)
    requires |x| >= |before| && |y| >= 1
    ensures x + y == before + [last] <==> x == before && y == [last]
  {
    if x + y == before + [last] {
      assert |x| == |before| && |y| == 1;
      assert x == (x + y)[..|x|] && before == (before + [last])[..|x|];
      assert y == (x + y)[|x|..] && [last] == (before + [last])[|x|..];
    }
  }

  lemma FixedSettingsHaveNoComma()
    ensures !HasComma(LOCAL) && !HasComma(SECURITY) && !HasComma(MULTIDEVS) && !HasComma(READONLY)
    ensures !HasComma(ID) && !HasComma(PATH) && !HasComma(MOUNT_TAG)
  {
  }

  lemma CommaInConcat(a: string, b: string)
    ensures HasComma(a + b) <==> HasComma(a) || HasComma(b)
  {
    if c :| c in a + b && IsComma(c) { assert c in a || c in b; }
    if c :| c in a && IsComma(c) { assert c in a + b; }
    if c :| c in b && IsComma(c) { assert c in a + b; }
  }

  lemma CommaInSettings(e: Export)
    ensures (exists w :: w in Settings(e) && HasComma(w)) <==> HasComma(e.id) || HasComma(e.path) || HasComma(e.tag)
  {
    var s, p := Settings(e), ExportedPath(e.path);
    FixedSettingsHaveNoComma();
    CommaInConcat(ID, e.id);
    CommaInConcat(PATH, p);
    CommaInConcat(MOUNT_TAG, e.tag);
    assert HasComma(e.path) <==> HasComma(p);
    assert s[1] == ID + e.id && s[2] == PATH + p && s[3] == MOUNT_TAG + e.tag;
    assert s[1] in s && s[2] in s && s[3] in s;
  }

  predicate ParsesBack(e: Export) {
    SplitBy(JoinWithCommas(Settings(e)), IsComma) == Settings(e)
  }

  /** QEMU reads the settings of an export back from its argument exactly if id, path
      and tag hold no comma. */
  lemma SettingsParseBackIff(e: Export)
    ensures ParsesBack(e) <==> !HasComma(e.id) && !HasComma(e.path) && !HasComma(e.tag)
  {
    JoinedPieces(Settings(e));
    CommaInSettings(e);
  }

  predicate StartsWith(s: string, key: string) {
    |key| <= |s| && s[..|key|] == key
  }

  /** The values given for a key among comma-separated settings. */
  function Values(key: string, pieces: seq<string>): seq<string> {
    if pieces == [] then []
    else
      (if StartsWith(pieces[0], key) then [pieces[0][|key|..]] else [])
      + Values(key, pieces[1..])
  }

  /** QEMU, splitting the argument at its commas, is told exactly these things. */
  predicate Tells(arg: string, id: string, path: string, tag: string, ro: bool) {
    var pieces := SplitBy(arg, IsComma);
    && pieces[0] == "local" && "security_model=none" in pieces && "multidevs=remap" in pieces
    && Values("id=", pieces) == [id] && Values("path=", pieces) == [path]
    && Values("mount_tag=", pieces) == [tag]
    && ("readonly=on" in pieces <==> ro)
  }

  lemma {:induction false} NoValues(key: string, pieces: seq<string>)
    requires forall p | p in pieces :: !StartsWith(p, key)
    ensures Values(key, pieces) == []
  {
    if pieces != [] { NoValues(key, pieces[1..]); }
  }

  /** A key that only one piece starts with has one value. */
  lemma {:induction false} OneValue(key: string, pieces: seq<string>, i: nat, value: string)
    requires i < |pieces| && pieces[i] == key + value
    requires forall j | 0 <= j < |pieces| && j != i :: !StartsWith(pieces[j], key)
    ensures Values(key, pieces) == [value]
  {
    assert pieces[i][..|key|] == key && pieces[i][|key|..] == value;
    if i == 0 {
      NoValues(key, pieces[1..]);
    } else {
      OneValue(key, pieces[1..], i - 1, value);
    }
  }

  /** No two settings start alike. */
  lemma KeysDiffer(e: Export, i: nat, j: nat)
    requires i < |Settings(e)| && j < |Settings(e)| && i != j
    ensures i == 1 ==> !StartsWith(Settings(e)[j], "id=")
    ensures i == 2 ==> !StartsWith(Settings(e)[j], "path=")
    ensures i == 3 ==> !StartsWith(Settings(e)[j], "mount_tag=")
    ensures i == 6 ==> Settings(e)[j] != "readonly=on"
  {
    var p := Settings(e)[j];
    assert j in {0, 1, 2, 3, 4, 5, 6};
    assert p[0] == (if j == 0 then 'l' else if j == 1 then 'i' else if j == 2 then 'p'
                    else if j == 3 || j == 5 then 'm' else if j == 4 then 's' else 'r');
    assert j == 5 ==> p[1] == 'u';
    assert "mount_tag="[0] == 'm' && "mount_tag="[1] == 'o';
    if StartsWith(p, "mount_tag=") {
      assert p[..10][0] == p[0] && p[..10][1] == p[1];
    }
    if StartsWith(p, "id=") { assert p[..3][0] == p[0]; }
    if StartsWith(p, "path=") { assert p[..5][0] == p[0]; }
  }

  lemma SettingsTell(e: Export)
    requires !HasComma(e.id) && !HasComma(e.path) && !HasComma(e.tag)
    ensures Tells(JoinWithCommas(Settings(e)), e.id, if e.path == "" then "." else e.path, e.tag, e.ro)
  {
    SettingsParseBackIff(e);
    var s := Settings(e);
    KeysTold(e);
    assert s[0] == "local" && s[4] == "security_model=none" && s[5] == "multidevs=remap";
    assert s[4] in s && s[5] in s;
    if e.ro {
      assert s[6] == "readonly=on";
    } else {
      forall p | p in s ensures p != "readonly=on" {
        var j :| 0 <= j < |s| && s[j] == p;
        assert p[0] != 'r';
      }
    }
  }

  lemma KeysTold(e: Export)
    ensures Values("id=", Settings(e)) == [e.id]
    ensures Values("path=", Settings(e)) == [if e.path == "" then "." else e.path]
    ensures Values("mount_tag=", Settings(e)) == [e.tag]
  {
    var s := Settings(e);
    forall j | 0 <= j < |s| ensures
      && (j != 1 ==> !StartsWith(s[j], "id=")) && (j != 2 ==> !StartsWith(s[j], "path="))
      && (j != 3 ==> !StartsWith(s[j], "mount_tag="))
    {
      if j != 1 { KeysDiffer(e, 1, j); }
      if j != 2 { KeysDiffer(e, 2, j); }
      if j != 3 { KeysDiffer(e, 3, j); }
    }
    OneValue("id=", s, 1, e.id);
    OneValue("path=", s, 2, ExportedPath(e.path));
    OneValue("mount_tag=", s, 3, e.tag);
  }

  /** `plan9_fs_args`. */
  method Plan9FsArgs(hostPath: string, id: string, tag: string, ro: bool) returns (args: seq<string>)
    ensures args == ["-virtfs", JoinWithCommas(Settings(Export(id, hostPath, tag, ro)))]
    ensures !HasComma(id) && !HasComma(hostPath) && !HasComma(tag) ==>
      Tells(args[1], id, if hostPath == "" then "." else hostPath, tag, ro)
  {
    args := ["-virtfs"];
    var arg := VirtfsSettings(hostPath, id, tag, ro);
    args := args + [arg];
    if !HasComma(id) && !HasComma(hostPath) && !HasComma(tag) {
      SettingsTell(Export(id, hostPath, tag, ro));
    }
  }

  method VirtfsSettings(hostPath: string, id: string, tag: string, ro: bool) returns (arg: string)
    ensures arg == JoinWithCommas(Settings(Export(id, hostPath, tag, ro)))
  {
    ghost var words := [LOCAL];
    arg := LOCAL;
    arg, words := Pushed(arg, ID + id, words);
    arg, words := Pushed(arg, PATH + (if hostPath == "" then "." else hostPath), words);
    arg, words := Pushed(arg, MOUNT_TAG + tag, words);
    arg, words := Pushed(arg, SECURITY, words);
    arg, words := Pushed(arg, MULTIDEVS, words);
    if ro {
      arg, words := Pushed(arg, READONLY, words);
    }
    assert words == Settings(Export(id, hostPath, tag, ro));
  }

  /** Pushes one more comma-separated setting onto an argument. */
  method Pushed(arg: string, w: string, ghost words: seq<string>) returns (r: string, ghost more: seq<string>)
    requires words != [] && arg == JoinWithCommas(words)
    ensures more == words + [w] && r == JoinWithCommas(more)
  {
    JoinOneMore(words, w);
    more := words + [w];
    r := arg + [','] + w;
  }

  // ----------------------------------------------------- visiting all the mounts

  /** An order in which a map's entries can be visited: each key once. */
  ghost predicate IsOrder(order: seq<string>, mounts: map<string, Mount>) {
    && (forall k :: k in order <==> k in mounts)
    && (forall i, j | 0 <= i < j < |order| :: order[i] != order[j])
  }

  /** The exports of the first `n` mounts visited. */
  function ExportsOf(hash: Hash, mounts: map<string, Mount>, order: seq<string>, n: nat): seq<Export>
    requires n <= |order| && forall k | k in order :: k in mounts
  {
    if n == 0 then []
    else
      assert order[n - 1] in order;
      ExportsOf(hash, mounts, order, n - 1) + [ExportOf(hash, mounts[order[n - 1]])]
  }

  /** The arguments that make QEMU export directories. */
  function ExportArgs(exports: seq<Export>): seq<string> {
    if exports == [] then []
    else
      var n := |exports| - 1;
      ExportArgs(exports[..n]) + ["-virtfs", JoinWithCommas(Settings(exports[n]))]
  }

  lemma ExportOneMore(exports: seq<Export>, e: Export)
    ensures ExportArgs(exports + [e]) == ExportArgs(exports) + ["-virtfs", JoinWithCommas(Settings(e))]
  {
    assert (exports + [e])[..|exports|] == exports;
  }

  lemma ExportOne(e: Export)
    ensures ExportArgs([e]) == ["-virtfs", JoinWithCommas(Settings(e))]
  {
    ExportOneMore([], e);
    assert [] + [e] == [e];
    assert ExportArgs([]) == [];
  }

  lemma {:induction false} ExportsMembers(hash: Hash, mounts: map<string, Mount>, order: seq<string>, n: nat)
    requires n <= |order| && forall k | k in order :: k in mounts
    ensures forall e :: e in ExportsOf(hash, mounts, order, n) <==>
      exists i :: 0 <= i < n && e == ExportOf(hash, mounts[order[i]])
  {
    if n > 0 {
      ExportsMembers(hash, mounts, order, n - 1);
      assert order[n - 1] in order;
    }
  }

  function VmPrefix(vm: VmConfig): seq<string> {
    ["-smp", Decimal(vm.numCpus), "-m", vm.memory]
  }

  /** `vmconfig_args`: every mount is exported, in the order the map is visited. */
  method VmconfigArgs(vm: VmConfig, order: seq<string>, hash: Hash) returns (args: seq<string>)
    requires IsOrder(order, vm.mounts)
    ensures args == VmPrefix(vm) + ExportArgs(ExportsOf(hash, vm.mounts, order, |order|)) + vm.extraArgs
  {
    args := ["-smp", Decimal(vm.numCpus), "-m", vm.memory];
    ghost var exports: seq<Export> := [];
    assert args == VmPrefix(vm) + ExportArgs(exports);
    for i := 0 to |order|
      invariant exports == ExportsOf(hash, vm.mounts, order, i)
      invariant args == VmPrefix(vm) + ExportArgs(exports)
    {
      assert order[i] in order;
      args, exports := MountExported(vm, vm.mounts[order[i]], hash, args, exports);
    }
    args := args + vm.extraArgs;
  }

  /** Spelled out: processors and memory first, the user's own arguments last. */
  lemma VmArgsAre(vm: VmConfig, exports: seq<string>)
    ensures var args := VmPrefix(vm) + exports + vm.extraArgs;
      && |args| == 4 + |exports| + |vm.extraArgs|
      && args[0] == "-smp" && args[1] == Decimal(vm.numCpus) && args[2] == "-m" && args[3] == vm.memory
      && args[4..4 + |exports|] == exports && args[4 + |exports|..] == vm.extraArgs
  {
  }

  /** One turn of that loop. */
  method MountExported(vm: VmConfig, m: Mount, hash: Hash, args: seq<string>, ghost exports: seq<Export>)
    returns (longer: seq<string>, ghost more: seq<Export>)
    requires args == VmPrefix(vm) + ExportArgs(exports)
    ensures more == exports + [ExportOf(hash, m)] && longer == VmPrefix(vm) + ExportArgs(more)
  {
    var name := TagOf(hash, m.hostPath);
    var mount := Plan9FsArgs(m.hostPath, name, name, !m.writable);
    more := exports + [ExportOf(hash, m)];
    ExportOneMore(exports, ExportOf(hash, m));
    assert ExportArgs(more) == ExportArgs(exports) + mount;
    longer := args + mount;
  }

  /** How the rootfs is passed to QEMU: as a drive, or exported and booted into. */
  function RootArgs(t: Target, drive: seq<string>, kernel: seq<string>): seq<string> {
    if t.image.Some? then drive else ExportArgs([RootExport(t.rootfs)]) + kernel
  }

  function ArgsWith(t: Target, base: string, fixed: seq<string>, drive: seq<string>, kernel: seq<string>,
                    order: seq<string>, hash: Hash): seq<string>
    requires forall k | k in order :: k in t.vm.mounts
  {
    fixed + RootArgs(t, drive, kernel) + ExportArgs([SharedExport(base)])
    + (VmPrefix(t.vm) + ExportArgs(ExportsOf(hash, t.vm.mounts, order, |order|)) + t.vm.extraArgs)
  }

  /** What boots comes after the fixed arguments: the disk image, or an export and the
      kernel with its arguments; and the user's arguments come last. */
  lemma ArgsAre(t: Target, base: string, fixed: seq<string>, drive: seq<string>, kernel: seq<string>,
                order: seq<string>, hash: Hash)
    requires forall k | k in order :: k in t.vm.mounts
    ensures var args := ArgsWith(t, base, fixed, drive, kernel, order, hash);
      && fixed <= args
      && (t.image.Some? ==> fixed + drive <= args)
      && (t.image.None? ==>
            fixed + ["-virtfs", JoinWithCommas(Settings(RootExport(t.rootfs)))] + kernel <= args)
      && |args| >= |t.vm.extraArgs| && args[|args| - |t.vm.extraArgs|..] == t.vm.extraArgs
  {
    var args := ArgsWith(t, base, fixed, drive, kernel, order, hash);
    var before := fixed + RootArgs(t, drive, kernel);
    assert before <= args;
    ExportOne(RootExport(t.rootfs));
    Associates(fixed, ExportArgs([RootExport(t.rootfs)]), kernel);
  }

  /** The part of `Qemu::new` that says what to boot and what to export. `fixed` are
      the arguments before it, `drive` those of a disk image. */
  method QemuArgs(t: Target, base: string, guestInit: string, fixed: seq<string>, drive: seq<string>,
                  order: seq<string>, hash: Hash) returns (args: seq<string>)
    requires RootSourceOf(t) != Unbootable && IsOrder(order, t.vm.mounts)
    ensures exists kernel: seq<string> ::
      && (t.image.None? ==> KernelArgs.Boots(kernel, t.kernel.value, t.arch, guestInit, t.kernelArgs))
      && args == ArgsWith(t, base, fixed, drive, kernel, order, hash)
  {
    args := fixed;
    ghost var kernel: seq<string> := [];
    if t.image.Some? {
      args := args + drive;
    } else {
      assert t.kernel.Some?;
      var root := Plan9FsArgs(t.rootfs, ROOT_ID, ROOT_TAG, false);
      var boot := KernelArgs.Build(t.kernel.value, t.arch, guestInit, t.kernelArgs);
      ExportOne(RootExport(t.rootfs));
      assert fixed + (root + boot) == fixed + root + boot;
      kernel := boot;
      args := args + root;
      args := args + boot;
    }
    assert args == fixed + RootArgs(t, drive, kernel);
    var shared := Plan9FsArgs(base, SHARED_ID, SHARED_TAG, false);
    ExportOne(SharedExport(base));
    args := args + shared;
    var vm := VmconfigArgs(t.vm, order, hash);
    args := args + vm;
    assert args == ArgsWith(t, base, fixed, drive, kernel, order, hash);
  }

  function ResultOf(error: Option<string>): Result<()> {
    match error
    case None => Ok(())
    case Some(e) => Err(e)
  }

  /** What `setup_vm` has sent at some point. */
  function SetupSent(p: Progress): seq<Output> {
    [SetupStart] + Wrapped(SetupLine, p.lines)
  }

  /** One mount of `setup_vm`. */
  method MountOne(a: Answers, before: seq<Output>, ghost p: Progress)
    returns (r: Result<()>, sent: seq<Output>, ghost q: Progress)
    requires p.error.None? && before == SetupSent(p)
    ensures q == p.Then(a) && sent == SetupSent(q) && r == ResultOf(q.error)
  {
    var lines, attempts, slept;
    r, lines, attempts, slept := MountInGuest(a);
    WrappedConcat(SetupLine, p.lines, lines);
    sent := before + Wrapped(SetupLine, lines);
    q := p.Then(a);
    Associates([SetupStart], Wrapped(SetupLine, p.lines), Wrapped(SetupLine, lines));
  }

  /** The requests of the shared mount and of the first `n` mounts visited. */
  function RequestsOf(hash: Hash, mounts: map<string, Mount>, order: seq<string>, n: nat): seq<Request>
    requires n <= |order| && forall k | k in order :: k in mounts
  {
    if n == 0 then [SHARED_REQUEST]
    else
      assert order[n - 1] in order;
      RequestsOf(hash, mounts, order, n - 1) + [RequestOf(hash, order[n - 1], mounts[order[n - 1]])]
  }

  lemma {:induction false} RequestsMembers(hash: Hash, mounts: map<string, Mount>, order: seq<string>, n: nat)
    requires n <= |order| && forall k | k in order :: k in mounts
    ensures |RequestsOf(hash, mounts, order, n)| == n + 1
    ensures forall q :: q in RequestsOf(hash, mounts, order, n) <==>
      q == SHARED_REQUEST || exists i :: 0 <= i < n && q == RequestOf(hash, order[i], mounts[order[i]])
  {
    if n > 0 {
      RequestsMembers(hash, mounts, order, n - 1);
      assert order[n - 1] in order;
    }
  }

  /** The directories `QemuArgs` exports, in order. */
  function Exported(hash: Hash, t: Target, base: string, order: seq<string>): seq<Export>
    requires forall k | k in order :: k in t.vm.mounts
  {
    (if t.image.Some? then [] else [RootExport(t.rootfs)])
    + [SharedExport(base)] + ExportsOf(hash, t.vm.mounts, order, |order|)
  }

  lemma MountsAreExported(hash: Hash, mounts: map<string, Mount>, order: seq<string>)
    requires IsOrder(order, mounts)
    ensures (set e | e in ExportsOf(hash, mounts, order, |order|)) == MountExports(hash, mounts)
  {
    ExportsMembers(hash, mounts, order, |order|);
    forall e | e in MountExports(hash, mounts) ensures e in ExportsOf(hash, mounts, order, |order|) {
      var g :| g in mounts && e == ExportOf(hash, mounts[g]);
      var i :| 0 <= i < |order| && order[i] == g;
      assert e == ExportOf(hash, mounts[order[i]]);
    }
    forall e | e in ExportsOf(hash, mounts, order, |order|) ensures e in MountExports(hash, mounts) {
      var i :| 0 <= i < |order| && e == ExportOf(hash, mounts[order[i]]);
      assert order[i] in order;
    }
  }

  /** QEMU exports all mounts, whatever the order of the map. */
  lemma AllAreExported(hash: Hash, t: Target, base: string, order: seq<string>)
    requires IsOrder(order, t.vm.mounts)
    ensures (set e | e in Exported(hash, t, base, order)) == AllExports(hash, t, base)
  {
    MountsAreExported(hash, t.vm.mounts, order);
    var exports, all := ExportsOf(hash, t.vm.mounts, order, |order|), Exported(hash, t, base, order);
    forall e ensures e in all <==> e in AllExports(hash, t, base) {
      assert e in exports <==> e in MountExports(hash, t.vm.mounts);
    }
  }

  /** A completed setup has requested all mounts, whatever the order of the map. */
  lemma AllAreRequested(hash: Hash, mounts: map<string, Mount>, order: seq<string>)
    requires IsOrder(order, mounts)
    ensures (set q | q in RequestsOf(hash, mounts, order, |order|)) == AllRequests(hash, mounts)
  {
    RequestsMembers(hash, mounts, order, |order|);
    forall q | q in AllRequests(hash, mounts) ensures q in RequestsOf(hash, mounts, order, |order|) {
      if q != SHARED_REQUEST {
        var g :| g in mounts && q == RequestOf(hash, g, mounts[g]);
        var i :| 0 <= i < |order| && order[i] == g;
        assert q == RequestOf(hash, order[i], mounts[order[i]]);
      }
    }
    forall q | q in RequestsOf(hash, mounts, order, |order|) ensures q in AllRequests(hash, mounts) {
      if q != SHARED_REQUEST {
        var i :| 0 <= i < |order| && q == RequestOf(hash, order[i], mounts[order[i]]);
        assert order[i] in order;
      }
    }
  }

  /** Setup ends with the mount at `n`: all were mounted, or this is the first that was
      not. */
  predicate EndsSetup(all: seq<Answers>, n: nat, ok: bool)
    requires n < |all|
  {
    if ok then n == |all| - 1 && forall a | a in all :: Mounted(a)
    else !Mounted(all[n]) && forall i | 0 <= i < n :: Mounted(all[i])
  }

  lemma SetupEndsAt(all: seq<Answers>, n: nat, ok: bool)
    requires n < |all| && Tried(all, n + 1).error.None? == ok
    requires if ok then n == |all| - 1 else Tried(all, n).error.None?
    ensures EndsSetup(all, n, ok) && Tried(all, n + 1) == Tried(all, |all|)
  {
    if ok {
      SetupSucceedsIff(all);
    } else {
      FailureStops(all, n + 1, |all|);
      FirstFailure(all, n);
    }
  }

  lemma FirstFailure(all: seq<Answers>, n: nat)
    requires n < |all| && Tried(all, n).error.None? && Tried(all, n + 1).error.Some?
    ensures !Mounted(all[n]) && forall i | 0 <= i < n :: Mounted(all[i])
  {
    forall i | 0 <= i < n ensures Mounted(all[i]) {
      SucceededSoFar(all, n, i);
    }
  }

  /** The loop of `setup_vm` over the configured mounts, until one fails. */
  method MountEach(mounts: map<string, Mount>, order: seq<string>, hash: Hash, all: seq<Answers>,
                   before: seq<Output>, first: Result<()>)
    returns (r: Result<()>, sent: seq<Output>, requests: seq<Request>, ghost n: nat)
    requires (forall k | k in order :: k in mounts) && |all| == 1 + |order|
    requires before == SetupSent(Tried(all, 1)) && first == ResultOf(Tried(all, 1).error)
    ensures n <= |order| && requests == RequestsOf(hash, mounts, order, n)
    ensures sent == SetupSent(Tried(all, |all|)) && r == ResultOf(SetupError(all)) && EndsSetup(all, n, r.Ok?)
  {
    r, sent, requests := first, before, [SHARED_REQUEST];
    var i := 0;
    ghost var p := Tried(all, 1);
    while i < |order| && r.Ok?
      invariant 0 <= i <= |order| && requests == RequestsOf(hash, mounts, order, i)
      invariant p == Tried(all, i + 1) && sent == SetupSent(p) && r == ResultOf(p.error)
      invariant Tried(all, i).error.None?
    {
      assert order[i] in order;
      requests := requests + [RequestOf(hash, order[i], mounts[order[i]])];
      r, sent, p := MountOne(all[i + 1], sent, p);
      i := i + 1;
    }
    n := i;
    SetupEndsAt(all, n, r.Ok?);
  }

  /** The shared mount, then that loop. */
  method MountAll(mounts: map<string, Mount>, order: seq<string>, hash: Hash, all: seq<Answers>)
    returns (r: Result<()>, sent: seq<Output>, requests: seq<Request>, ghost n: nat)
    requires (forall k | k in order :: k in mounts) && |all| == 1 + |order|
    ensures n <= |order| && requests == RequestsOf(hash, mounts, order, n)
    ensures |requests| == n + 1 && RequestsMean(hash, mounts, order, requests)
    ensures sent == SetupSent(Tried(all, |all|)) && r == ResultOf(SetupError(all)) && EndsSetup(all, n, r.Ok?)
  {
    ghost var p;
    assert SetupSent(Tried(all, 0)) == [SetupStart];
    r, sent, p := MountOne(all[0], [SetupStart], Tried(all, 0));
    r, sent, requests, n := MountEach(mounts, order, hash, all, sent, r);
    RequestsMembers(hash, mounts, order, n);
    RequestsAre(hash, mounts, order, n);
  }

  /** What `setup_vm` sends: it leaves it to its caller to report an error. */
  function SetupMessages(all: seq<Answers>): seq<Output> {
    SetupSent(Tried(all, |all|)) + if SetupError(all).None? then [SetupEnd(Ok(()))] else []
  }

  /** `setup_vm`: the shared directory, then the configured mounts in the order the map
      is visited, until one fails. `answers` are the guest's, in that order. Nothing is
      requested after the first mount that fails. */
  method SetupVm(mounts: map<string, Mount>, order: seq<string>, hash: Hash,
                 shared: Answers, answers: seq<Answers>)
    returns (r: Result<()>, sent: seq<Output>, requests: seq<Request>)
    requires IsOrder(order, mounts) && |answers| == |order|
    ensures r == ResultOf(SetupError([shared] + answers))
    ensures sent == SetupMessages([shared] + answers)
    ensures exists n: nat :: n <= |order| && requests == RequestsOf(hash, mounts, order, n)
                             && EndsSetup([shared] + answers, n, r.Ok?)
    ensures r.Ok? ==> (set q | q in requests) == AllRequests(hash, mounts) && |requests| == 1 + |order|
    ensures 0 < |requests| <= 1 + |order| && RequestsMean(hash, mounts, order, requests)
  {
    ghost var n;
    r, sent, requests, n := MountAll(mounts, order, hash, [shared] + answers);
    if r.Ok? {
      sent := sent + [SetupEnd(Ok(()))];
      AllAreRequested(hash, mounts, order);
    }
  }

  /** The shared directory is requested first, writable; then each mount at its place in
      the guest, under the tag of its host path, read-only unless it is writable. */
  ghost predicate RequestsMean(hash: Hash, mounts: map<string, Mount>, order: seq<string>, requests: seq<Request>)
    requires 0 < |requests| <= 1 + |order| && forall k | k in order :: k in mounts
  {
    && requests[0].guestPath == "/mnt/vmtest" && requests[0].tag == "vmtest-shared" && !requests[0].ro
    && forall i | 0 <= i < |requests| - 1 ::
      var q, m := requests[i + 1], mounts[order[i]];
      && q.guestPath == order[i] && q.tag == "mount" + Decimal(hash(Components(m.hostPath)))
      && (q.ro <==> !m.writable)
  }

  lemma {:induction false} RequestsAre(hash: Hash, mounts: map<string, Mount>, order: seq<string>, n: nat)
    requires n <= |order| && (forall k | k in order :: k in mounts)
    requires |RequestsOf(hash, mounts, order, n)| == n + 1
    ensures RequestsMean(hash, mounts, order, RequestsOf(hash, mounts, order, n))
  {
    if n > 0 {
      assert order[n - 1] in order;
      RequestsAre(hash, mounts, order, n - 1);
    }
  }

  /** After a successful setup exactly the shared directory's place and those of the
      configured mounts were requested. */
  lemma GuestPathsRequested(hash: Hash, mounts: map<string, Mount>, order: seq<string>, requests: seq<Request>)
    requires IsOrder(order, mounts) && |requests| == 1 + |order| && RequestsMean(hash, mounts, order, requests)
    ensures (set q | q in requests :: q.guestPath) == {"/mnt/vmtest"} + mounts.Keys
  {
    assert requests[0] in requests;
    forall g | g in mounts ensures exists q :: q in requests && q.guestPath == g {
      var i :| 0 <= i < |order| && order[i] == g;
      assert requests[i + 1] in requests;
    }
    forall q | q in requests ensures q.guestPath == "/mnt/vmtest" || q.guestPath in mounts {
      var i :| 0 <= i < |requests| && requests[i] == q;
      if i > 0 { assert order[i - 1] in order; }
    }
  }

  // ------------------------------------------------------------------ agreement

  function MountExports(hash: Hash, mounts: map<string, Mount>): set<Export> {
    set g | g in mounts :: ExportOf(hash, mounts[g])
  }

  function AllExports(hash: Hash, t: Target, base: string): set<Export> {
    (if t.image.Some? then {} else {RootExport(t.rootfs)})
    + {SharedExport(base)} + MountExports(hash, t.vm.mounts)
  }

  function AllRequests(hash: Hash, mounts: map<string, Mount>): set<Request> {
    {SHARED_REQUEST} + set g | g in mounts :: RequestOf(hash, g, mounts[g])
  }

  lemma FixedTagsAreUnique(hash: Hash, hostPath: string)
    ensures TagOf(hash, hostPath) != SHARED_TAG && TagOf(hash, hostPath) != ROOT_TAG && SHARED_TAG != ROOT_TAG
  {
    assert TagOf(hash, hostPath)[0] == 'm' && SHARED_TAG[0] == 'v' && ROOT_TAG[0] == '/';
  }

  lemma TagInjective(hash: Hash, p: string, q: string)
    ensures TagOf(hash, p) == TagOf(hash, q) <==> hash(Components(p)) == hash(Components(q))
  {
    if TagOf(hash, p) == TagOf(hash, q) {
      var m, n := hash(Components(p)), hash(Components(q));
      assert TagOf(hash, p)[|MOUNT|..] == Decimal(m) && TagOf(hash, q)[|MOUNT|..] == Decimal(n);
      DecimalInjective(m, n);
    }
  }

  /** The guest is told to mount exactly the tags that QEMU exports, except for that of
      the root, which its kernel mounts. */
  lemma TagsAgree(hash: Hash, t: Target, base: string)
    ensures (set e | e in AllExports(hash, t, base) :: e.tag) - {ROOT_TAG}
         == (set q | q in AllRequests(hash, t.vm.mounts) :: q.tag)
    ensures ROOT_TAG in (set e | e in AllExports(hash, t, base) :: e.tag) <==> t.image.None?
  {
    var mounts := t.vm.mounts;
    var exported := set e | e in AllExports(hash, t, base) :: e.tag;
    var requested := set q | q in AllRequests(hash, mounts) :: q.tag;
    FixedTagsAreUnique(hash, "");
    forall g | g in mounts
      ensures TagOf(hash, mounts[g].hostPath) in exported * requested && TagOf(hash, mounts[g].hostPath) != ROOT_TAG
    {
      FixedTagsAreUnique(hash, mounts[g].hostPath);
      assert ExportOf(hash, mounts[g]) in AllExports(hash, t, base);
      assert RequestOf(hash, g, mounts[g]) in AllRequests(hash, mounts);
    }
    assert SHARED_TAG in exported && SHARED_TAG in requested by {
      assert SharedExport(base) in AllExports(hash, t, base);
      assert SHARED_REQUEST in AllRequests(hash, mounts);
    }
    if t.image.None? {
      assert RootExport(t.rootfs) in AllExports(hash, t, base);
    }
    forall tag | tag in exported && tag != ROOT_TAG ensures tag in requested {
      var e :| e in AllExports(hash, t, base) && e.tag == tag;
    }
    forall tag | tag in requested ensures tag in exported && tag != ROOT_TAG {
      var q :| q in AllRequests(hash, mounts) && q.tag == tag;
    }
  }

  /** Whatever export a mount's tag finds in the guest, it is the mount's own host
      path, read-only on both sides or on neither. */
  ghost predicate MountsWhatWasMeant(hash: Hash, t: Target, base: string) {
    forall g, e | g in t.vm.mounts && e in AllExports(hash, t, base) ::
      var q := RequestOf(hash, g, t.vm.mounts[g]);
      e.tag == q.tag ==>
        Components(e.path) == Components(t.vm.mounts[g].hostPath) && (e.ro <==> q.ro)
  }

  /** The same directory, mounted in the same way. */
  predicate Alike(m: Mount, n: Mount) {
    Components(m.hostPath) == Components(n.hostPath) && m.writable == n.writable
  }

  function HashOf(hash: Hash, m: Mount): nat {
    hash(Components(m.hostPath))
  }

  /** Tags are unambiguous exactly if mounts whose host paths hash alike are alike. */
  lemma MountsWhatWasMeantIff(hash: Hash, t: Target, base: string)
    ensures MountsWhatWasMeant(hash, t, base) <==>
      forall g, h | g in t.vm.mounts && h in t.vm.mounts
                    && HashOf(hash, t.vm.mounts[g]) == HashOf(hash, t.vm.mounts[h]) ::
        Alike(t.vm.mounts[g], t.vm.mounts[h])
  {
    var mounts := t.vm.mounts;
    var alike := forall g, h | g in mounts && h in mounts
                   && HashOf(hash, mounts[g]) == HashOf(hash, mounts[h]) :: Alike(mounts[g], mounts[h]);
    if alike {
      forall g, e | g in mounts && e in AllExports(hash, t, base) && e.tag == TagOf(hash, mounts[g].hostPath)
        ensures Components(e.path) == Components(mounts[g].hostPath) && e.ro == !mounts[g].writable
      {
        var h := ExportWithTag(hash, t, base, mounts[g].hostPath, e);
        assert Alike(mounts[g], mounts[h]);
      }
    }
    if MountsWhatWasMeant(hash, t, base) {
      forall g, h | g in mounts && h in mounts && HashOf(hash, mounts[g]) == HashOf(hash, mounts[h])
        ensures Alike(mounts[g], mounts[h])
      {
        TagInjective(hash, mounts[g].hostPath, mounts[h].hostPath);
        assert ExportOf(hash, mounts[h]) in AllExports(hash, t, base);
      }
    }
  }

  lemma ExportWithTag(hash: Hash, t: Target, base: string, p: string, e: Export)
    returns (h: string)
    requires e in AllExports(hash, t, base) && e.tag == TagOf(hash, p)
    ensures h in t.vm.mounts && e == ExportOf(hash, t.vm.mounts[h])
    ensures HashOf(hash, t.vm.mounts[h]) == hash(Components(p))
  {
    FixedTagsAreUnique(hash, p);
    h :| h in t.vm.mounts && e == ExportOf(hash, t.vm.mounts[h]);
    TagInjective(hash, t.vm.mounts[h].hostPath, p);
  }

  /** In particular it suffices that no two host paths of the target collide. */
  lemma DistinctPathsSuffice(hash: Hash, t: Target, base: string)
    requires forall g, h | g in t.vm.mounts && h in t.vm.mounts && g != h ::
               HashOf(hash, t.vm.mounts[g]) != HashOf(hash, t.vm.mounts[h])
    ensures MountsWhatWasMeant(hash, t, base)
  {
    MountsWhatWasMeantIff(hash, t, base);
  }

  /** A directory that is mounted twice, once writable, breaks it for every hash. */
  lemma SharedPathBreaks(hash: Hash, t: Target, base: string, g: string, h: string)
    requires g in t.vm.mounts && h in t.vm.mounts
    requires Components(t.vm.mounts[g].hostPath) == Components(t.vm.mounts[h].hostPath)
    requires t.vm.mounts[g].writable && !t.vm.mounts[h].writable
    ensures !MountsWhatWasMeant(hash, t, base)
  {
    MountsWhatWasMeantIff(hash, t, base);
  }

  lemma FixedTagsHaveNoComma()
    ensures !HasComma(SHARED_ID) && !HasComma(SHARED_TAG) && !HasComma(ROOT_ID) && !HasComma(ROOT_TAG)
    ensures !HasComma(MOUNT)
  {
  }

  /** All that can break an export of a target, be it the root, the shared directory or
      a mount, is a comma in its host path. */
  lemma ExportParsesBackIff(hash: Hash, t: Target, base: string, e: Export)
    requires e in AllExports(hash, t, base)
    ensures ParsesBack(e) <==> !HasComma(e.path)
  {
    SettingsParseBackIff(e);
    FixedTagsHaveNoComma();
    if e in MountExports(hash, t.vm.mounts) {
      var d := Decimal(hash(Components(e.path)));
      CommaInConcat(MOUNT, d);
      assert forall c | c in d :: !IsComma(c);
    }
  }

  lemma MountFindsItsPath(hash: Hash, base: string, t: Target, u: Target, g: string, e: Export)
    requires ResolvedFrom(base, t, u) && MountsWhatWasMeant(hash, u, base)
    requires g in t.vm.mounts && e in AllExports(hash, u, base)
    requires e.tag == RequestOf(hash, g, u.vm.mounts[g]).tag
    ensures Components(e.path) == Meant(base, t.vm.mounts[g].hostPath)
    ensures e.ro == !t.vm.mounts[g].writable
    ensures IsAbsolute(base) ==> IsAbsolute(e.path)
  {
    assert u.vm.mounts[g] == ResolvedMount(base, t.vm.mounts[g]);
    ResolveMeans(base, t.vm.mounts[g].hostPath);
    SameComponents(e.path, u.vm.mounts[g].hostPath);
  }

  lemma SameComponents(p: string, q: string)
    requires Components(p) == Components(q)
    ensures IsAbsolute(p) <==> IsAbsolute(q)
  {
    AbsoluteIff(p);
    AbsoluteIff(q);
  }

  lemma RequestOfMount(hash: Hash, mounts: map<string, Mount>, q: Request)
    requires q in AllRequests(hash, mounts) && q.tag != "vmtest-shared"
    ensures q.guestPath in mounts && q == RequestOf(hash, q.guestPath, mounts[q.guestPath])
  {
  }

  /** From the configuration to the guest, for every base: whatever export a request
      finds in the guest, it is the path configured for the place requested, with the
      writability configured. */
  lemma ConfiguredPathIsMounted(hash: Hash, base: string, t: Target, u: Target, q: Request, e: Export)
    requires ResolvedFrom(base, t, u) && MountsWhatWasMeant(hash, u, base)
    requires q in AllRequests(hash, u.vm.mounts) && q.tag != "vmtest-shared"
    requires e in AllExports(hash, u, base) && e.tag == q.tag
    ensures q.guestPath in t.vm.mounts
    ensures var m := t.vm.mounts[q.guestPath];
      Components(e.path) == Meant(base, m.hostPath) && e.ro == q.ro == !m.writable
    ensures IsAbsolute(base) ==> IsAbsolute(e.path)
  {
    RequestOfMount(hash, u.vm.mounts, q);
    MountFindsItsPath(hash, base, t, u, q.guestPath, e);
    assert u.vm.mounts[q.guestPath] == ResolvedMount(base, t.vm.mounts[q.guestPath]);
  }

  /** The shared directory: the base, writable, at "/mnt/vmtest". */
  lemma SharedIsMounted(hash: Hash, base: string, t: Target, q: Request, e: Export)
    requires q in AllRequests(hash, t.vm.mounts) && q.tag == "vmtest-shared"
    requires e in AllExports(hash, t, base) && e.tag == q.tag
    ensures q.guestPath == "/mnt/vmtest" && !q.ro && e.path == base && !e.ro
  {
    if q != SHARED_REQUEST {
      var g :| g in t.vm.mounts && q == RequestOf(hash, g, t.vm.mounts[g]);
      FixedTagsAreUnique(hash, t.vm.mounts[g].hostPath);
    }
    if e != SharedExport(base) && e in MountExports(hash, t.vm.mounts) {
      FixedTagsAreUnique(hash, e.path);
    }
  }
}
