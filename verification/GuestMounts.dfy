/** The mount(8) calls of `mount_in_guest`. */
module GuestMounts {
  import opened Text
  import opened MountTags
  import KernelArgs

  const TRANS := "trans=virtio"
  const CACHE := "cache=mmap"
  const MSIZE := "msize=1048576"

  /** What mount(8) makes of its arguments: a 9p mount of the tag at the place requested,
      read-only exactly if "ro" is among the options. */
  predicate Mounts9p(args: seq<string>, q: Request) {
    && |args| == 6 && args[0] == "-t" && args[1] == "9p" && args[2] == "-o"
    && args[4] == q.tag && args[5] == q.guestPath
    && SplitBy(args[3], IsComma) == ["trans=virtio", "cache=mmap", "msize=1048576"] + if q.ro then ["ro"] else []
  }

  lemma OptionsHaveNoComma()
    ensures !HasComma(TRANS) && !HasComma(CACHE) && !HasComma(MSIZE) && !HasComma("ro")
  {
  }

  lemma ThreeOptions(a: string, b: string, c: string)
    requires !HasComma(a) && !HasComma(b) && !HasComma(c)
    ensures SplitBy(a + [','] + (b + [','] + c), IsComma) == [a, b, c]
  {
    SplitWithoutSeparator(a, IsComma);
    SplitWithoutSeparator(b, IsComma);
    SplitWithoutSeparator(c, IsComma);
    SplitAtSeparator(b, ',', c, IsComma);
    SplitAtSeparator(a, ',', b + [','] + c, IsComma);
    assert [a] + ([b] + [c]) == [a, b, c];
  }

  lemma OneMoreOption(opts: string, more: string)
    requires !HasComma(more)
    ensures SplitBy(opts + [','] + more, IsComma) == SplitBy(opts, IsComma) + [more]
  {
    SplitWithoutSeparator(more, IsComma);
    SplitAtSeparator(opts, ',', more, IsComma);
  }

  /** The options that `mount_in_guest` and the kernel's rootflags have in common. */
  lemma FixedOptionsSpelled()
    ensures KernelArgs.MOUNT_OPTS_9P_FS == TRANS + [','] + (CACHE + [','] + MSIZE)
  {
  }

  method FixedOptions() returns (opts: string)
    ensures SplitBy(opts, IsComma) == [TRANS, CACHE, MSIZE]
  {
    opts := TRANS + [','] + (CACHE + [','] + MSIZE);
    OptionsHaveNoComma();
    ThreeOptions(TRANS, CACHE, MSIZE);
  }

  /** The arguments of the mount call for a request. */
  method MountCall(q: Request) returns (args: seq<string>)
    ensures Mounts9p(args, q)
  {
    var opts := FixedOptions();
    if q.ro {
      OptionsHaveNoComma();
      OneMoreOption(opts, "ro");
      opts := opts + [','] + "ro";
    }
    args := ["-t", "9p", "-o", opts, q.tag, q.guestPath];
  }
}
