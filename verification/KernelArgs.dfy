/** `kernel_args`: the kernel command line. */
module KernelArgs {
  import opened Messages
  import opened Text

  const MOUNT_OPTS_9P_FS := "trans=virtio,cache=mmap,msize=1048576"

  function ConsoleDevice(arch: string): string {
    if arch == "aarch64" then "ttyAMA0" else "0"
  }

  const ROOTFSTYPE := "rootfstype=9p"
  const ROOTFLAGS := "rootflags="
  const RW := "rw"
  const EARLYPRINTK := "earlyprintk=serial,"
  const DEVKMSG := "printk.devkmsg=on"
  const CONSOLE := "console="
  const BAUD := ",115200"
  const LOGLEVEL := "loglevel=7"
  const RAID := "raid=noautodetect"
  const INIT := "init="
  const PANIC := "panic=-1"

  /** The parameters vmtest generates, in order. */
  function Generated(arch: string, init: string): seq<string> {
    [ROOTFSTYPE, ROOTFLAGS + MOUNT_OPTS_9P_FS, RW, EARLYPRINTK + ConsoleDevice(arch) + BAUD, DEVKMSG,
     CONSOLE + ConsoleDevice(arch) + BAUD, LOGLEVEL, RAID, INIT + init, PANIC]
  }

  /** Spelled out: the root is on 9p and writable, both consoles are the machine's serial
      one, and a panic ends the machine. */
  lemma GeneratedAre(arch: string, init: string)
    ensures var device := if arch == "aarch64" then "ttyAMA0" else "0";
      Generated(arch, init) ==
      ["rootfstype=9p", "rootflags=trans=virtio,cache=mmap,msize=1048576", "rw",
       "earlyprintk=serial," + device + ",115200", "printk.devkmsg=on", "console=" + device + ",115200",
       "loglevel=7", "raid=noautodetect", "init=" + init, "panic=-1"]
  {
    assert ROOTFLAGS + MOUNT_OPTS_9P_FS == "rootflags=trans=virtio,cache=mmap,msize=1048576";
  }

  function UserWords(kargs: Option<string>): seq<string> {
    match kargs
    case None => []
    case Some(k) => SplitWhitespace(k)
  }

  predicate HasWhitespace(s: string) {
    exists c :: c in s && IsWhitespace(c)
  }

  lemma WordsConcat(a: string, b: string)
    requires IsWord(a) && !HasWhitespace(b)
    ensures IsWord(a + b)
  {
    forall c | c in a + b ensures !IsWhitespace(c) {
      assert c in a || c in b;
    }
  }

  /** Printable ASCII without the blank. */
  predicate Visible(s: string) {
    forall i | 0 <= i < |s| :: '!' <= s[i] <= '~'
  }

  lemma VisibleIsWord(s: string)
    requires Visible(s)
    ensures !HasWhitespace(s) && (s != "" ==> IsWord(s))
  {
  }

  lemma FixedTextIsVisible(arch: string)
    ensures Visible(ROOTFSTYPE) && Visible(ROOTFLAGS) && Visible(RW) && Visible(DEVKMSG)
    ensures Visible(CONSOLE) && Visible(BAUD) && Visible(LOGLEVEL) && Visible(INIT) && Visible(PANIC)
    ensures Visible(ConsoleDevice(arch))
  {
  }

  lemma LongTextIsVisible()
    ensures Visible(MOUNT_OPTS_9P_FS) && Visible(EARLYPRINTK) && Visible(RAID)
  {
  }

  lemma VisibleConcat(a: string, b: string)
    requires Visible(a) && Visible(b)
    ensures Visible(a + b)
  {
  }

  lemma GeneratedAreWords(arch: string, init: string)
    requires !HasWhitespace(init)
    ensures forall w | w in Generated(arch, init) :: IsWord(w)
  {
    FixedTextIsVisible(arch);
    LongTextIsVisible();
    VisibleConcat(ROOTFLAGS, MOUNT_OPTS_9P_FS);
    VisibleConcat(EARLYPRINTK, ConsoleDevice(arch));
    VisibleConcat(EARLYPRINTK + ConsoleDevice(arch), BAUD);
    VisibleConcat(CONSOLE, ConsoleDevice(arch));
    VisibleConcat(CONSOLE + ConsoleDevice(arch), BAUD);
    var words := Generated(arch, init);
    forall w | w in words ensures IsWord(w) {
      var i :| 0 <= i < |words| && words[i] == w;
      if i == 8 {
        VisibleIsWord(INIT);
        WordsConcat(INIT, init);
      } else {
        VisibleIsWord(w);
      }
    }
  }

  /** The command line parses back into the generated parameters followed by the user's
      words exactly if the init path holds no whitespace, for every user string. */
  lemma CommandLineParsesBackIff(arch: string, init: string, kargs: Option<string>)
    ensures SplitWhitespace(JoinWithSpaces(Generated(arch, init) + UserWords(kargs)))
            == Generated(arch, init) + UserWords(kargs)
        <==> !HasWhitespace(init)
  {
    var words := Generated(arch, init) + UserWords(kargs);
    if kargs.Some? { WordsAreWords(kargs.value); }
    if HasWhitespace(init) {
      WordsAreWords(JoinWithSpaces(words));
      var c :| c in init && IsWhitespace(c);
      var w := INIT + init;
      assert words[8] == w && w in words;
      assert c in w;
    } else {
      GeneratedAreWords(arch, init);
      JoinThenSplit(words);
    }
  }

  /** Arguments that boot a kernel with this command line. */
  predicate Boots(args: seq<string>, kernel: string, arch: string, init: string, kargs: Option<string>) {
    && |args| == 5 && args[..4] == ["-kernel", kernel, "-no-reboot", "-append"]
    && args[4] == JoinWithSpaces(Generated(arch, init) + UserWords(kargs))
  }

  /** `kernel_args`. */
  method Build(kernel: string, arch: string, init: string, kargs: Option<string>) returns (args: seq<string>)
    ensures Boots(args, kernel, arch, init, kargs)
    ensures !HasWhitespace(init) ==>
      SplitWhitespace(args[4]) == Generated(arch, init) + if kargs.Some? then SplitWhitespace(kargs.value) else []
  {
    args := ["-kernel", kernel];
    args := args + ["-no-reboot"];
    var cmdline: seq<string> := [];
    cmdline := cmdline + [ROOTFSTYPE];
    cmdline := cmdline + [ROOTFLAGS + MOUNT_OPTS_9P_FS];
    cmdline := cmdline + [RW];
    cmdline := cmdline + [EARLYPRINTK + ConsoleDevice(arch) + BAUD];
    cmdline := cmdline + [DEVKMSG];
    cmdline := cmdline + [CONSOLE + ConsoleDevice(arch) + BAUD];
    cmdline := cmdline + [LOGLEVEL];
    cmdline := cmdline + [RAID];
    cmdline := cmdline + [INIT + init];
    cmdline := cmdline + [PANIC];
    assert cmdline == Generated(arch, init);
    if kargs.Some? {
      cmdline := cmdline + SplitWhitespace(kargs.value);
    }
    assert cmdline == Generated(arch, init) + UserWords(kargs);
    CommandLineParsesBackIff(arch, init, kargs);
    args := args + ["-append"];
    args := args + [JoinWithSpaces(cmdline)];
  }
}
