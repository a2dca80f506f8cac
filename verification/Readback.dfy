/** What QEMU reads from the arguments it is given agrees with what the guest is told to
    mount. */
module Readback {
  import opened Messages
  import opened Text
  import opened Config
  import opened Mounts
  import opened MountTags
  import opened Paths
  import KernelArgs

  const VIRTFS := "-virtfs"

  /** The arguments that follow a "-virtfs". */
  ghost predicate Follows(arg: string, args: seq<string>) {
    exists i :: 0 < i < |args| && args[i - 1] == VIRTFS && args[i] == arg
  }

  /** The mount tags that arguments tell QEMU. */
  ghost function TagsTold(args: seq<string>): set<string> {
    set arg, v | arg in args && Follows(arg, args) && v in Values("mount_tag=", SplitBy(arg, IsComma)) :: v
  }

  /** Some argument tells QEMU to export a path under a tag. */
  ghost predicate IsTold(args: seq<string>, id: string, path: string, tag: string, ro: bool) {
    exists arg :: Follows(arg, args) && Tells(arg, id, path, tag, ro)
  }

  lemma NothingTold(args: seq<string>)
    requires VIRTFS !in args
    ensures TagsTold(args) == {}
  {
  }

  lemma FollowsInBoth(a: seq<string>, b: seq<string>, arg: string)
    requires a == [] || a[|a| - 1] != VIRTFS
    ensures Follows(arg, a + b) <==> Follows(arg, a) || Follows(arg, b)
  {
    var c := a + b;
    if i :| 0 < i < |c| && c[i - 1] == VIRTFS && c[i] == arg {
      if i < |a| {
        assert a[i - 1] == VIRTFS && a[i] == arg;
      } else {
        assert i - |a| > 0;
        assert b[i - |a| - 1] == VIRTFS && b[i - |a|] == arg;
      }
    }
    if i :| 0 < i < |a| && a[i - 1] == VIRTFS && a[i] == arg {
      assert c[i - 1] == VIRTFS && c[i] == arg;
    }
    if i :| 0 < i < |b| && b[i - 1] == VIRTFS && b[i] == arg {
      assert c[|a| + i - 1] == VIRTFS && c[|a| + i] == arg;
    }
  }

  /** Two lists of arguments, the first not ending in an unfinished export. */
  lemma ToldInBoth(a: seq<string>, b: seq<string>)
    requires a == [] || a[|a| - 1] != VIRTFS
    ensures TagsTold(a + b) == TagsTold(a) + TagsTold(b)
  {
    forall arg: string {
      FollowsInBoth(a, b, arg);
    }
  }

  lemma {:induction false} LastIsNoFlag(a: seq<string>, b: seq<string>)
    requires a == [] || a[|a| - 1] != VIRTFS
    requires b == [] || b[|b| - 1] != VIRTFS
    ensures a + b == [] || (a + b)[|a + b| - 1] != VIRTFS
  {
  }

  predicate CommaFree(e: Export) {
    !HasComma(e.id) && !HasComma(e.path) && !HasComma(e.tag)
  }

  lemma SettingsAreNoFlag(e: Export)
    requires CommaFree(e)
    ensures JoinWithCommas(Settings(e)) != VIRTFS
  {
    SettingsParseBackIff(e);
    SplitWithoutSeparator(VIRTFS, IsComma);
  }

  lemma OneExportTold(e: Export)
    requires CommaFree(e)
    ensures TagsTold([VIRTFS, JoinWithCommas(Settings(e))]) == {e.tag}
  {
    SettingsTell(e);
    var arg := JoinWithCommas(Settings(e));
    TagsOfOne(arg, SplitBy(arg, IsComma), e.tag);
  }

  lemma TagsOfOne(arg: string, pieces: seq<string>, tag: string)
    requires pieces == SplitBy(arg, IsComma) && Values("mount_tag=", pieces) == [tag]
    ensures TagsTold([VIRTFS, arg]) == {tag}
  {
    var args := [VIRTFS, arg];
    assert args[1 - 1] == VIRTFS && args[1] == arg;
    forall a ensures Follows(a, args) <==> a == arg {
      if i :| 0 < i < |args| && args[i - 1] == VIRTFS && args[i] == a {
        assert i == 1;
      }
    }
    assert arg in args;
    assert tag in Values("mount_tag=", SplitBy(arg, IsComma));
  }

  /** The arguments for exports tell QEMU their tags. */
  lemma {:induction false} ExportsTold(exports: seq<Export>)
    requires forall e | e in exports :: CommaFree(e)
    ensures TagsTold(ExportArgs(exports)) == set e | e in exports :: e.tag
    ensures exports != [] ==> ExportArgs(exports) != [] && ExportArgs(exports)[|ExportArgs(exports)| - 1] != VIRTFS
    ensures exports == [] ==> ExportArgs(exports) == []
  {
    if exports != [] {
      var n := |exports| - 1;
      var front, last := exports[..n], exports[n];
      assert exports == front + [last];
      ExportsTold(front);
      OneExportTold(last);
      SettingsAreNoFlag(last);
      ToldInBoth(ExportArgs(front), [VIRTFS, JoinWithCommas(Settings(last))]);
    }
  }

  /** The other arguments cannot be taken for exports. */
  predicate Plain(args: seq<string>) {
    VIRTFS !in args
  }

  lemma PlainAround(a: seq<string>, b: seq<string>, c: seq<string>)
    requires Plain(a) && Plain(c) && (b == [] || b[|b| - 1] != VIRTFS)
    ensures TagsTold(a + b + c) == TagsTold(b)
    ensures a + b + c == [] || (a + b + c)[|a + b + c| - 1] != VIRTFS
  {
    assert a != [] ==> a[|a| - 1] in a;
    assert c != [] ==> c[|c| - 1] in c;
    NothingTold(a);
    NothingTold(c);
    ToldInBoth(a, b);
    LastIsNoFlag(a, b);
    ToldInBoth(a + b, c);
    LastIsNoFlag(a + b, c);
  }

  /** The exports of a target that are told: the root's, the shared one, the mounts'. */
  lemma ArgsTell(t: Target, base: string, fixed: seq<string>, drive: seq<string>, kernel: seq<string>,
                 order: seq<string>, hash: Hash)
    requires IsOrder(order, t.vm.mounts)
    requires Plain(fixed) && Plain(drive) && Plain(VmPrefix(t.vm)) && Plain(t.vm.extraArgs)
    requires t.image.None? ==> Plain(kernel)
    requires forall e | e in Exported(hash, t, base, order) :: CommaFree(e)
    ensures TagsTold(ArgsWith(t, base, fixed, drive, kernel, order, hash))
         == set e | e in Exported(hash, t, base, order) :: e.tag
  {
    var exports := ExportsOf(hash, t.vm.mounts, order, |order|);
    var root := if t.image.Some? then [] else [RootExport(t.rootfs)];
    var shared := [SharedExport(base)];
    assert Exported(hash, t, base, order) == root + shared + exports;
    assert forall e | e in root + shared + exports :: CommaFree(e);
    PartsTold(root, shared, exports);
    RootTold(t, fixed, drive, kernel);
    PlainAround(VmPrefix(t.vm), ExportArgs(exports), t.vm.extraArgs);
    ThreeTold(fixed + RootArgs(t, drive, kernel), ExportArgs(shared),
              VmPrefix(t.vm) + ExportArgs(exports) + t.vm.extraArgs);
  }

  lemma PartsTold(root: seq<Export>, shared: seq<Export>, exports: seq<Export>)
    requires shared != [] && forall e | e in root + shared + exports :: CommaFree(e)
    ensures TagsTold(ExportArgs(root)) + TagsTold(ExportArgs(shared)) + TagsTold(ExportArgs(exports))
         == set e | e in root + shared + exports :: e.tag
    ensures ExportArgs(shared) != [] && ExportArgs(shared)[|ExportArgs(shared)| - 1] != VIRTFS
    ensures ExportArgs(exports) == [] || ExportArgs(exports)[|ExportArgs(exports)| - 1] != VIRTFS
  {
    ExportsTold(root);
    ExportsTold(shared);
    ExportsTold(exports);
    TagsOfThree(root, shared, exports);
  }

  lemma ThreeTold(a: seq<string>, b: seq<string>, c: seq<string>)
    requires a == [] || a[|a| - 1] != VIRTFS
    requires b == [] || b[|b| - 1] != VIRTFS
    ensures TagsTold(a + b + c) == TagsTold(a) + TagsTold(b) + TagsTold(c)
  {
    ToldInBoth(a, b);
    LastIsNoFlag(a, b);
    ToldInBoth(a + b, c);
  }

  lemma RootTold(t: Target, fixed: seq<string>, drive: seq<string>, kernel: seq<string>)
    requires Plain(fixed) && Plain(drive) && (t.image.None? ==> Plain(kernel))
    requires t.image.None? ==> CommaFree(RootExport(t.rootfs))
    ensures var before := fixed + RootArgs(t, drive, kernel);
      && TagsTold(before) == TagsTold(if t.image.Some? then [] else ExportArgs([RootExport(t.rootfs)]))
      && (before == [] || before[|before| - 1] != VIRTFS)
  {
    if t.image.Some? {
      PlainAround(fixed, [], drive);
      assert fixed + [] + drive == fixed + drive;
    } else {
      ExportsTold([RootExport(t.rootfs)]);
      PlainAround(fixed, ExportArgs([RootExport(t.rootfs)]), kernel);
      Associates(fixed, ExportArgs([RootExport(t.rootfs)]), kernel);
    }
  }

  lemma TagsOfThree(a: seq<Export>, b: seq<Export>, c: seq<Export>)
    ensures (set e | e in a + b + c :: e.tag)
         == (set e | e in a :: e.tag) + (set e | e in b :: e.tag) + (set e | e in c :: e.tag)
  {
  }

  /** The kernel's own arguments are not exports unless the kernel's path looks so. */
  lemma KernelArgsArePlain(args: seq<string>, kernel: string, arch: string, init: string, kargs: Option<string>)
    requires KernelArgs.Boots(args, kernel, arch, init, kargs) && kernel != VIRTFS
    ensures Plain(args)
  {
    var words := KernelArgs.Generated(arch, init) + KernelArgs.UserWords(kargs);
    assert words[0][0] == 'r';
    assert args[4] == words[0] + [' '] + JoinWithSpaces(words[1..]);
    assert args[4][0] == 'r' && VIRTFS[0] == '-';
    forall a | a in args ensures a != VIRTFS {
      var i :| 0 <= i < |args| && args[i] == a;
      if i < 4 { assert args[..4][i] == a; }
    }
  }

  /** From end to end: for arguments that `QemuArgs` builds, if nothing else on the
      command line looks like an export and no exported path holds a comma, the mount tags
      that QEMU reads, less the root's, are those that a successful `SetupVm` requests;
      and QEMU reads the root's exactly if it boots a kernel. */
  lemma TagsToldAreRequested(hash: Hash, t: Target, base: string, guestInit: string, fixed: seq<string>,
                             drive: seq<string>, kernel: seq<string>, order: seq<string>, requests: seq<Request>)
    requires IsOrder(order, t.vm.mounts) && RootSourceOf(t) != Unbootable
    requires t.image.None? ==>
      KernelArgs.Boots(kernel, t.kernel.value, t.arch, guestInit, t.kernelArgs) && t.kernel.value != VIRTFS
    requires Plain(fixed) && Plain(drive) && Plain(t.vm.extraArgs) && t.vm.memory != VIRTFS
    requires forall e | e in AllExports(hash, t, base) :: !HasComma(e.path)
    requires (set q | q in requests) == AllRequests(hash, t.vm.mounts)
    ensures var told := TagsTold(ArgsWith(t, base, fixed, drive, kernel, order, hash));
      && told - {"/dev/root"} == (set q | q in requests :: q.tag)
      && ("/dev/root" in told <==> t.image.None?)
  {
    if t.image.None? { KernelArgsArePlain(kernel, t.kernel.value, t.arch, guestInit, t.kernelArgs); }
    assert Plain(VmPrefix(t.vm)) by {
      assert forall c | c in Decimal(t.vm.numCpus) :: '0' <= c <= '9';
      assert Decimal(t.vm.numCpus)[0] in Decimal(t.vm.numCpus) && VIRTFS[0] == '-';
    }
    AllAreExported(hash, t, base, order);
    forall e | e in Exported(hash, t, base, order) ensures CommaFree(e) {
      assert e in AllExports(hash, t, base);
      ExportParsesBackIff(hash, t, base, e);
      SettingsParseBackIff(e);
    }
    ArgsTell(t, base, fixed, drive, kernel, order, hash);
    TagsAgree(hash, t, base);
    SameTags(Exported(hash, t, base, order), AllExports(hash, t, base));
    assert (set q | q in requests :: q.tag) == (set q | q in AllRequests(hash, t.vm.mounts) :: q.tag);
  }

  lemma SameTags(exports: seq<Export>, all: set<Export>)
    requires (set e | e in exports) == all
    ensures (set e | e in exports :: e.tag) == (set e | e in all :: e.tag)
  {
    assert forall e :: e in exports <==> e in all;
  }

  lemma {:induction false} EachExportTold(exports: seq<Export>, e: Export)
    requires e in exports && CommaFree(e)
    ensures Follows(JoinWithCommas(Settings(e)), ExportArgs(exports))
  {
    var n := |exports| - 1;
    var front, last := exports[..n], exports[n];
    assert exports == front + [last];
    var args := ExportArgs(front) + [VIRTFS, JoinWithCommas(Settings(last))];
    if e == last {
      assert args[|args| - 1 - 1] == VIRTFS && args[|args| - 1] == JoinWithCommas(Settings(e));
    } else {
      EachExportTold(front, e);
      var i :| 0 < i < |ExportArgs(front)| && ExportArgs(front)[i - 1] == VIRTFS
               && ExportArgs(front)[i] == JoinWithCommas(Settings(e));
      assert args[i - 1] == VIRTFS && args[i] == JoinWithCommas(Settings(e));
    }
  }

  lemma FollowsWithin(arg: string, a: seq<string>, b: seq<string>, c: seq<string>)
    requires Follows(arg, b)
    ensures Follows(arg, a + b + c)
  {
    var i :| 0 < i < |b| && b[i - 1] == VIRTFS && b[i] == arg;
    var all := a + b + c;
    assert all[|a| + i - 1] == VIRTFS && all[|a| + i] == arg;
  }

  /** For every mount whose path holds no comma, whatever else the command line holds,
      some argument tells QEMU to export the mount's own path, read-only unless it is
      writable, under the tag that the guest is told to mount at the mount's place. */
  lemma MountIsTold(hash: Hash, t: Target, base: string, fixed: seq<string>, drive: seq<string>,
                    kernel: seq<string>, order: seq<string>, g: string)
    requires IsOrder(order, t.vm.mounts) && g in t.vm.mounts && !HasComma(t.vm.mounts[g].hostPath)
    ensures var m := t.vm.mounts[g];
      var tag := "mount" + Decimal(hash(Components(m.hostPath)));
      IsTold(ArgsWith(t, base, fixed, drive, kernel, order, hash),
             tag, if m.hostPath == "" then "." else m.hostPath, tag, !m.writable)
  {
    var e, exports := ExportOf(hash, t.vm.mounts[g]), ExportsOf(hash, t.vm.mounts, order, |order|);
    MountsAreExported(hash, t.vm.mounts, order);
    assert e in MountExports(hash, t.vm.mounts);
    assert e in exports;
    MountCommaFree(hash, t, base, g);
    EachExportTold(exports, e);
    var arg := JoinWithCommas(Settings(e));
    var before := fixed + RootArgs(t, drive, kernel) + ExportArgs([SharedExport(base)]);
    FollowsWithin(arg, VmPrefix(t.vm), ExportArgs(exports), t.vm.extraArgs);
    FollowsWithin(arg, before, VmPrefix(t.vm) + ExportArgs(exports) + t.vm.extraArgs, []);
    assert before + (VmPrefix(t.vm) + ExportArgs(exports) + t.vm.extraArgs) + []
        == before + (VmPrefix(t.vm) + ExportArgs(exports) + t.vm.extraArgs);
    SettingsTell(e);
  }

  lemma ExportFollows(e: Export)
    requires CommaFree(e)
    ensures Follows(JoinWithCommas(Settings(e)), ExportArgs([e]))
  {
    EachExportTold([e], e);
  }

  /** So does one for the shared directory, under the tag that the guest is told, */
  lemma SharedIsTold(hash: Hash, t: Target, base: string, fixed: seq<string>, drive: seq<string>,
                     kernel: seq<string>, order: seq<string>)
    requires (forall k | k in order :: k in t.vm.mounts) && !HasComma(base)
    ensures IsTold(ArgsWith(t, base, fixed, drive, kernel, order, hash),
                   "shared", if base == "" then "." else base, "vmtest-shared", false)
  {
    var e := SharedExport(base);
    var rest := VmPrefix(t.vm) + ExportArgs(ExportsOf(hash, t.vm.mounts, order, |order|)) + t.vm.extraArgs;
    FixedTagsHaveNoComma();
    ExportFollows(e);
    FollowsWithin(JoinWithCommas(Settings(e)), fixed + RootArgs(t, drive, kernel), ExportArgs([e]), rest);
    SettingsTell(e);
  }

  /** and, for a kernel, one for the rootfs, writable, under the tag of the root device. */
  lemma RootIsTold(hash: Hash, t: Target, base: string, fixed: seq<string>, drive: seq<string>,
                   kernel: seq<string>, order: seq<string>)
    requires (forall k | k in order :: k in t.vm.mounts) && t.image.None? && !HasComma(t.rootfs)
    ensures IsTold(ArgsWith(t, base, fixed, drive, kernel, order, hash),
                   "root", if t.rootfs == "" then "." else t.rootfs, "/dev/root", false)
  {
    var e := RootExport(t.rootfs);
    var vm := VmPrefix(t.vm) + ExportArgs(ExportsOf(hash, t.vm.mounts, order, |order|)) + t.vm.extraArgs;
    var rest := kernel + ExportArgs([SharedExport(base)]) + vm;
    FixedTagsHaveNoComma();
    ExportFollows(e);
    FollowsWithin(JoinWithCommas(Settings(e)), fixed, ExportArgs([e]), rest);
    RootFirst(fixed, ExportArgs([e]), kernel, ExportArgs([SharedExport(base)]), vm);
    SettingsTell(e);
  }

  lemma RootFirst(a: seq<string>, b: seq<string>, c: seq<string>, d: seq<string>, e: seq<string>)
    ensures a + (b + c) + d + e == a + b + (c + d + e)
  {
  }

  lemma MountCommaFree(hash: Hash, t: Target, base: string, g: string)
    requires g in t.vm.mounts && !HasComma(t.vm.mounts[g].hostPath)
    ensures CommaFree(ExportOf(hash, t.vm.mounts[g]))
  {
    var e := ExportOf(hash, t.vm.mounts[g]);
    assert e in MountExports(hash, t.vm.mounts);
    ExportParsesBackIff(hash, t, base, e);
    SettingsParseBackIff(e);
  }
}
