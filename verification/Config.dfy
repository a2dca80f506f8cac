/** Validating and resolving the configuration: `validate_config`, `resolve_path`,
    `setup_qemu`. */
module Config {
  import opened Messages
  import Paths

  datatype Mount = Mount(hostPath: string, writable: bool)

  datatype VmConfig = VmConfig(numCpus: nat, memory: string, mounts: map<string, Mount>,
                               bios: Option<string>, extraArgs: seq<string>)

  datatype Target = Target(name: string, image: Option<string>, uefi: bool, kernel: Option<string>,
                           kernelArgs: Option<string>, rootfs: string, arch: string, command: string,
                           vm: VmConfig)

  /** What can be wrong with a target, in the order the checks are made. */
  datatype Problem =
    | EmptyName | NothingToBoot | ImageAndKernel | UefiWithoutImage | BiosWithoutUefi
    | KernelArgsWithoutKernel | EmptyImage | EmptyKernel | EmptyCommand
  {
    function Order(): nat {
      match this
      case EmptyName => 0
      case NothingToBoot => 1
      case ImageAndKernel => 2
      case UefiWithoutImage => 3
      case BiosWithoutUefi => 4
      case KernelArgsWithoutKernel => 5
      case EmptyImage => 6
      case EmptyKernel => 7
      case EmptyCommand => 8
    }
  }

  predicate Has(t: Target, p: Problem) {
    match p
    case EmptyName => t.name == ""
    case NothingToBoot => t.image.None? && t.kernel.None?
    case ImageAndKernel => t.image.Some? && t.kernel.Some?
    case UefiWithoutImage => t.uefi && t.image.None?
    case BiosWithoutUefi => !t.uefi && t.vm.bios.Some?
    case KernelArgsWithoutKernel => t.kernelArgs.Some? && t.kernel.None?
    case EmptyImage => t.image == Some("")
    case EmptyKernel => t.kernel == Some("")
    case EmptyCommand => t.command == ""
  }

  ghost predicate Sound(t: Target) {
    forall p: Problem :: !Has(t, p)
  }

  /** A sound target has a name and a command, boots from an image or a kernel but not
      both, and uses firmware and kernel arguments only where they apply. */
  lemma SoundIff(t: Target)
    ensures Sound(t) <==>
      && t.name != "" && t.command != ""
      && (t.image.Some? <==> t.kernel.None?)
      && (t.uefi ==> t.image.Some?) && (t.vm.bios.Some? ==> t.uefi)
      && (t.kernelArgs.Some? ==> t.kernel.Some?)
      && (t.image.Some? ==> t.image.value != "") && (t.kernel.Some? ==> t.kernel.value != "")
  {
    assert Sound(t) ==> !Has(t, EmptyName) && !Has(t, NothingToBoot) && !Has(t, ImageAndKernel)
                        && !Has(t, UefiWithoutImage) && !Has(t, BiosWithoutUefi);
    assert Sound(t) ==> !Has(t, KernelArgsWithoutKernel) && !Has(t, EmptyImage) && !Has(t, EmptyKernel)
                        && !Has(t, EmptyCommand);
  }

  /** The order of the checks. */
  lemma FirstIs(t: Target, p: Problem)
    requires First(t, p)
    ensures p == if t.name == "" then EmptyName
                 else if t.image.None? && t.kernel.None? then NothingToBoot
                 else if t.image.Some? && t.kernel.Some? then ImageAndKernel
                 else if t.uefi && t.image.None? then UefiWithoutImage
                 else if !t.uefi && t.vm.bios.Some? then BiosWithoutUefi
                 else if t.kernelArgs.Some? && t.kernel.None? then KernelArgsWithoutKernel
                 else if t.image.Some? && t.image.value == "" then EmptyImage
                 else if t.kernel.Some? && t.kernel.value == "" then EmptyKernel
                 else EmptyCommand
  {
    assert forall q: Problem :: Has(t, q) ==> p.Order() <= q.Order();
    var expected := if t.name == "" then EmptyName
                 else if t.image.None? && t.kernel.None? then NothingToBoot
                 else if t.image.Some? && t.kernel.Some? then ImageAndKernel
                 else if t.uefi && t.image.None? then UefiWithoutImage
                 else if !t.uefi && t.vm.bios.Some? then BiosWithoutUefi
                 else if t.kernelArgs.Some? && t.kernel.None? then KernelArgsWithoutKernel
                 else if t.image.Some? && t.image.value == "" then EmptyImage
                 else if t.kernel.Some? && t.kernel.value == "" then EmptyKernel
                 else EmptyCommand;
    assert Has(t, p) && Has(t, expected);
  }

  /** `p` is the problem of `t` that is checked first. */
  ghost predicate First(t: Target, p: Problem) {
    Has(t, p) && forall q: Problem :: Has(t, q) ==> p.Order() <= q.Order()
  }

  /** The checks of one target. */
  method Check(t: Target) returns (r: Option<Problem>)
    ensures r.None? <==> Sound(t)
    ensures r.Some? ==> First(t, r.value)
  {
    if t.name == "" {
      assert Has(t, EmptyName);
      return Some(EmptyName);
    }
    match (t.image, t.kernel) {
      case (None, None) =>
        assert Has(t, NothingToBoot);
        return Some(NothingToBoot);
      case (Some(_), Some(_)) =>
        assert Has(t, ImageAndKernel);
        return Some(ImageAndKernel);
      case _ =>
    }
    if t.uefi && t.image.None? {
      assert Has(t, UefiWithoutImage);
      return Some(UefiWithoutImage);
    }
    if !t.uefi && t.vm.bios.Some? {
      assert Has(t, BiosWithoutUefi);
      return Some(BiosWithoutUefi);
    }
    if t.kernelArgs.Some? && t.kernel.None? {
      assert Has(t, KernelArgsWithoutKernel);
      return Some(KernelArgsWithoutKernel);
    }
    if t.image.Some? {
      if t.image.value == "" {
        assert Has(t, EmptyImage);
        return Some(EmptyImage);
      }
    }
    if t.kernel.Some? {
      if t.kernel.value == "" {
        assert Has(t, EmptyKernel);
        return Some(EmptyKernel);
      }
    }
    if t.command == "" {
      assert Has(t, EmptyCommand);
      return Some(EmptyCommand);
    }
    return None;
  }

  /** `validate_config`: the first unsound target with its first problem, if any. */
  method Validate(targets: seq<Target>) returns (r: Option<(nat, Problem)>)
    ensures r.None? <==> forall t | t in targets :: Sound(t)
    ensures r.Some? ==> r.value.0 < |targets| && First(targets[r.value.0], r.value.1)
    ensures r.Some? ==> forall t | t in targets[..r.value.0] :: Sound(t)
  {
    for idx := 0 to |targets|
      invariant forall t | t in targets[..idx] :: Sound(t)
    {
      assert targets[idx] in targets && targets[..idx + 1] == targets[..idx] + [targets[idx]];
      var problem := Check(targets[idx]);
      if problem.Some? {
        return Some((idx, problem.value));
      }
    }
    assert targets[..|targets|] == targets;
    return None;
  }

  /** `resolve_path`. */
  function Resolve(base: string, p: string): string {
    if Paths.IsAbsolute(p) then p else Paths.Push(base, p)
  }

  function ResolveOption(base: string, p: Option<string>): Option<string> {
    match p
    case None => None
    case Some(path) => Some(Resolve(base, path))
  }

  /** What a configured path means: itself if it is absolute or the base is empty, as it
      is for a bare "vmtest.toml", and otherwise the base followed by it. */
  function Meant(base: string, p: string): seq<Paths.Component> {
    if Paths.IsAbsolute(p) || base == "" then Paths.Components(p)
    else Paths.Components(base) + Paths.Inner(p)
  }

  /** For every base a path resolves to what is meant; the result is absolute exactly if
      the base or the path is, and resolving again changes it exactly if neither is and
      the base is not empty. */
  lemma ResolveMeans(base: string, p: string)
    ensures var q := Resolve(base, p);
      && Paths.Components(q) == Meant(base, p)
      && (Paths.IsAbsolute(q) <==> Paths.IsAbsolute(base) || Paths.IsAbsolute(p))
      && (Resolve(base, q) == q <==> Paths.IsAbsolute(base) || Paths.IsAbsolute(p) || base == "")
  {
    if !Paths.IsAbsolute(p) {
      Paths.PushRelative(base, p);
      var q := Paths.Push(base, p);
      if base != "" {
        assert q[0] == base[0];
        assert |Paths.Push(base, q)| >= |q| + |base| || Paths.IsAbsolute(q);
      }
    }
  }

  /** `setup_qemu` up to `Qemu::new`: the target with every path resolved. */
  method SetupQemu(base: string, targets: seq<Target>, idx: nat) returns (r: Option<Target>)
    ensures r.None? <==> idx >= |targets|
    ensures r.Some? ==> ResolvedFrom(base, targets[idx], r.value)
  {
    if idx >= |targets| {
      return None;
    }
    var target := targets[idx];
    target := target.(image := ResolveOption(base, target.image));
    target := target.(kernel := ResolveOption(base, target.kernel));
    target := target.(rootfs := Resolve(base, target.rootfs));
    target := target.(vm := target.vm.(bios := ResolveOption(base, target.vm.bios)));
    var mounts := target.vm.mounts;
    var todo := mounts.Keys;
    while todo != {}
      invariant todo <= mounts.Keys == targets[idx].vm.mounts.Keys
      invariant forall k | k in mounts.Keys ::
        mounts[k] == var m := targets[idx].vm.mounts[k]; if k in todo then m else ResolvedMount(base, m)
      decreases |todo|
    {
      var k :| k in todo;
      mounts := mounts[k := mounts[k].(hostPath := Resolve(base, mounts[k].hostPath))];
      todo := todo - {k};
    }
    target := target.(vm := target.vm.(mounts := mounts));
    return Some(target);
  }

  function ResolvedMount(base: string, m: Mount): Mount {
    m.(hostPath := Resolve(base, m.hostPath))
  }

  /** `u` is `t` with its paths resolved and nothing else changed. */
  ghost predicate ResolvedFrom(base: string, t: Target, u: Target) {
    && u.vm.mounts.Keys == t.vm.mounts.Keys
    && (forall k | k in t.vm.mounts :: u.vm.mounts[k] == ResolvedMount(base, t.vm.mounts[k]))
    && u == t.(image := ResolveOption(base, t.image), kernel := ResolveOption(base, t.kernel),
               rootfs := Resolve(base, t.rootfs),
               vm := t.vm.(bios := ResolveOption(base, t.vm.bios), mounts := u.vm.mounts))
  }

  predicate MeansOption(base: string, p: Option<string>, q: Option<string>) {
    && (p.Some? <==> q.Some?)
    && (p.Some? ==> Paths.Components(q.value) == Meant(base, p.value))
  }

  /** Every path of a resolved target means what was configured, and the rest of the
      target is as it was. */
  lemma ResolvedMeans(base: string, t: Target, u: Target)
    requires ResolvedFrom(base, t, u)
    ensures MeansOption(base, t.image, u.image) && MeansOption(base, t.kernel, u.kernel)
    ensures MeansOption(base, t.vm.bios, u.vm.bios)
    ensures Paths.Components(u.rootfs) == Meant(base, t.rootfs)
    ensures u.vm.mounts.Keys == t.vm.mounts.Keys && forall k | k in t.vm.mounts ::
      && Paths.Components(u.vm.mounts[k].hostPath) == Meant(base, t.vm.mounts[k].hostPath)
      && u.vm.mounts[k].writable == t.vm.mounts[k].writable
    ensures u.name == t.name && u.uefi == t.uefi && u.kernelArgs == t.kernelArgs && u.arch == t.arch
    ensures u.command == t.command && u.vm == t.vm.(bios := u.vm.bios, mounts := u.vm.mounts)
  {
    ResolveMeans(base, t.rootfs);
    if t.image.Some? { ResolveMeans(base, t.image.value); }
    if t.kernel.Some? { ResolveMeans(base, t.kernel.value); }
    if t.vm.bios.Some? { ResolveMeans(base, t.vm.bios.value); }
    forall k | k in t.vm.mounts
      ensures Paths.Components(u.vm.mounts[k].hostPath) == Meant(base, t.vm.mounts[k].hostPath)
           && u.vm.mounts[k].writable == t.vm.mounts[k].writable
    {
      ResolveMeans(base, t.vm.mounts[k].hostPath);
    }
  }

  /** Where `Qemu::new` takes the root filesystem from. */
  datatype RootSource = FromImage | FromKernel | Unbootable

  function RootSourceOf(t: Target): RootSource {
    if t.image.Some? then FromImage else if t.kernel.Some? then FromKernel else Unbootable
  }

  /** The panic of `Qemu::new` is unreachable after validation; a validated target boots
      from a kernel exactly if it names one, and only then has kernel arguments. */
  lemma ValidTargetsBoot(base: string, t: Target, u: Target)
    requires Sound(t) && ResolvedFrom(base, t, u)
    ensures RootSourceOf(u) != Unbootable
    ensures RootSourceOf(u).FromKernel? <==> t.kernel.Some?
    ensures u.kernelArgs.Some? ==> RootSourceOf(u).FromKernel?
  {
    assert !Has(t, NothingToBoot) && !Has(t, ImageAndKernel) && !Has(t, KernelArgsWithoutKernel);
  }
}
