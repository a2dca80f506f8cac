/** Unix paths as `std::path` sees them, and the path of the init script in the guest. */
module Paths {
  import opened Text

  /** The components of a path; "//" and inner "." are not components. */
  datatype Component = Root | Cur | Parent | Normal(name: string)

  predicate IsAbsolute(p: string) {
    p != "" && p[0] == '/'
  }

  function Body(segments: seq<string>): (r: seq<Component>)
    ensures forall c | c in r :: c.Parent? || c.Normal?
  {
    if segments == [] then []
    else
      (if segments[0] == "" || segments[0] == "." then []
       else [if segments[0] == ".." then Parent else Normal(segments[0])])
      + Body(segments[1..])
  }

  function OfSegments(absolute: bool, segments: seq<string>): seq<Component>
    requires segments != []
  {
    if absolute then [Root] + Body(segments)
    else if segments[0] == "." then [Cur] + Body(segments[1..])
    else Body(segments)
  }

  /** `Path::components`: a leading "." counts in a relative path. */
  function Components(p: string): seq<Component> {
    OfSegments(IsAbsolute(p), SplitBy(p, IsSlash))
  }

  /** `PathBuf::push`. */
  function Push(base: string, p: string): string {
    if IsAbsolute(p) then p
    else if base != "" && base[|base| - 1] != '/' then base + "/" + p
    else base + p
  }

  predicate IsSuffix(a: seq<Component>, b: seq<Component>) {
    |a| <= |b| && b[|b| - |a|..] == a
  }

  /** A name that can be one component. */
  predicate IsFileName(f: string) {
    f != "" && f != "." && f != ".." && '/' !in f
  }

  lemma {:induction false} BodyConcat(a: seq<string>, b: seq<string>)
    ensures Body(a + b) == Body(a) + Body(b)
  {
    if a == [] {
      assert a + b == b;
    } else {
      var whole := a + b;
      assert whole[0] == a[0] && whole[1..] == a[1..] + b;
      BodyConcat(a[1..], b);
    }
  }

  /** A path's components without the leading "." that pushing it makes redundant. */
  function Inner(p: string): seq<Component> {
    Body(SplitBy(p, IsSlash))
  }

  lemma InnerIsTail(p: string)
    ensures IsAbsolute(p) ==> Components(p) == [Root] + Inner(p)
    ensures !IsAbsolute(p) && Components(p) != [] && Components(p)[0] == Cur ==> Inner(p) == Components(p)[1..]
    ensures !IsAbsolute(p) && (Components(p) == [] || Components(p)[0] != Cur) ==> Inner(p) == Components(p)
  {
    var segments := SplitBy(p, IsSlash);
    assert segments[0] == "." ==> Body(segments) == Body(segments[1..]);
    assert ([Cur] + Body(segments[1..]))[1..] == Body(segments[1..]);
    assert Body(segments) != [] ==> Body(segments)[0] in Body(segments);
  }

  /** The first component tells whether a path is absolute. */
  lemma AbsoluteIff(p: string)
    ensures IsAbsolute(p) <==> Components(p) != [] && Components(p)[0] == Root
  {
    var all := Body(SplitBy(p, IsSlash));
    assert all != [] ==> all[0] in all;
  }

  lemma SegmentsConcat(absolute: bool, x: seq<string>, y: seq<string>)
    requires x != []
    ensures OfSegments(absolute, x + y) == OfSegments(absolute, x) + Body(y)
  {
    assert (x + y)[0] == x[0] && (x + y)[1..] == x[1..] + y;
    if !absolute && x[0] == "." {
      BodyConcat(x[1..], y);
      assert [Cur] + (Body(x[1..]) + Body(y)) == ([Cur] + Body(x[1..])) + Body(y);
    } else {
      BodyConcat(x, y);
      assert [Root] + (Body(x) + Body(y)) == ([Root] + Body(x)) + Body(y);
    }
  }

  /** Separators split components. */
  lemma ComponentsAtSlash(a: string, b: string)
    requires a != ""
    ensures Components(a + "/" + b) == Components(a) + Inner(b)
  {
    var x, y := SplitBy(a, IsSlash), SplitBy(b, IsSlash);
    SplitAtSeparator(a, '/', b, IsSlash);
    assert (a + "/" + b)[0] == a[0];
    SegmentsConcat(IsAbsolute(a), x, y);
  }

  lemma InnerAtSlash(a: string, b: string)
    ensures Inner(a + "/" + b) == Inner(a) + Inner(b)
  {
    SplitAtSeparator(a, '/', b, IsSlash);
    BodyConcat(SplitBy(a, IsSlash), SplitBy(b, IsSlash));
  }

  lemma EmptyInner()
    ensures Inner("") == []
  {
    assert Body([""]) == Body([""][1..]);
  }

  lemma TrailingSlash(a: string)
    requires a != ""
    ensures Components(a + "/") == Components(a) && Inner(a + "/") == Inner(a)
  {
    assert a + "/" == a + "/" + "";
    ComponentsAtSlash(a, "");
    InnerAtSlash(a, "");
    EmptyInner();
  }

  /** Pushing a relative path appends its components; the empty path leaves no trace. */
  lemma PushRelative(base: string, p: string)
    requires !IsAbsolute(p)
    ensures Components(Push(base, p)) == if base == "" then Components(p) else Components(base) + Inner(p)
  {
    if base == "" {
      assert base + p == p;
    } else if base[|base| - 1] != '/' {
      ComponentsAtSlash(base, p);
    } else {
      var front := base[..|base| - 1];
      assert base == front + "/";
      assert Push(base, p) == front + "/" + p;
      if front == "" {
        RootedPath(p);
      } else {
        TrailingSlash(front);
        ComponentsAtSlash(front, p);
      }
    }
  }

  lemma RootedPath(p: string)
    ensures Components("/" + p) == [Root] + Inner(p) && Components("/") == [Root]
  {
    assert "/" + p == "" + "/" + p && "/" == "" + "/" + "";
    InnerAtSlash("", p);
    InnerAtSlash("", "");
    EmptyInner();
  }

  lemma FileNameComponents(f: string)
    requires IsFileName(f)
    ensures !IsAbsolute(f) && Inner(f) == [Normal(f)]
  {
    assert forall c | c in f :: !IsSlash(c);
    SplitWithoutSeparator(f, IsSlash);
    assert Body([f]) == [Normal(f)] + Body([f][1..]);
    assert f[0] in f;
  }

  /** Concatenating strings, as `OsString::push` does, appends the components of an
      absolute path after its root, unless there is nothing before it. */
  lemma ConcatAbsolute(r: string, t: string)
    requires IsAbsolute(t)
    ensures Components(r + t) == if r == "" then Components(t) else Components(r) + Inner(t)
  {
    if r == "" {
      assert r + t == t;
    } else {
      assert t == "/" + t[1..] && r + t == r + "/" + t[1..];
      ComponentsAtSlash(r, t[1..]);
      RootedPath(t[1..]);
      assert [Root] + Inner(t) == [Root] + Inner(t[1..]);
      assert Inner(t) == ([Root] + Inner(t))[1..];
    }
  }

  // --------------------------------------------------------------- guest_init_path

  datatype InitPath = InGuest(path: string) | Rejected | Panics

  /** `guest_init_path`: the script's path in the guest, an error, or the panic of
      unwrapping a missing file name. */
  function GuestInitPath(tempDir: string, hostInit: string): InitPath {
    Rerooted(tempDir, Components(hostInit))
  }

  function Rerooted(tempDir: string, host: seq<Component>): InitPath {
    if host == [] || host[|host| - 1] == Root || !IsAbsolute(tempDir) then Rejected
    else if !IsSuffix(Components(tempDir)[1..], host[..|host| - 1]) then Rejected
    else match host[|host| - 1]
      case Normal(f) => InGuest(Push(tempDir, f))
      case _ => Panics
  }

  /** The path of the temporary file: the name joined to the directory, made absolute. */
  function HostInitPath(cwd: string, rootfs: string, tempDir: string, file: string): string {
    var p := Push(rootfs + tempDir, file);
    if IsAbsolute(p) then p else Push(cwd, p)
  }

  /** Where the root of the guest is on the host. */
  function GuestRoot(cwd: string, rootfs: string): seq<Component> {
    if IsAbsolute(rootfs) then Components(rootfs)
    else if rootfs == "" then [Root]
    else Components(cwd) + Inner(rootfs)
  }

  lemma ScriptComponents(rootfs: string, tempDir: string, file: string)
    requires IsAbsolute(tempDir) && IsFileName(file)
    ensures var p := Push(rootfs + tempDir, file);
      && (IsAbsolute(p) <==> rootfs == "" || IsAbsolute(rootfs))
      && Components(p) == (if rootfs == "" then Components(tempDir) else Components(rootfs) + Inner(tempDir))
                          + [Normal(file)]
  {
    FileNameComponents(file);
    PushRelative(rootfs + tempDir, file);
    ConcatAbsolute(rootfs, tempDir);
    assert Push(rootfs + tempDir, file)[0] == (rootfs + tempDir)[0];
  }

  /** The host path of the script is the guest's root, the temp dir and the name. */
  lemma HostComponents(cwd: string, rootfs: string, tempDir: string, file: string)
    requires IsAbsolute(cwd) && IsAbsolute(tempDir) && IsFileName(file)
    ensures Components(HostInitPath(cwd, rootfs, tempDir, file))
         == GuestRoot(cwd, rootfs) + (Inner(tempDir) + [Normal(file)])
  {
    var p := Push(rootfs + tempDir, file);
    ScriptComponents(rootfs, tempDir, file);
    InnerIsTail(tempDir);
    if rootfs == "" || IsAbsolute(rootfs) {
      Associates(GuestRoot(cwd, rootfs), Inner(tempDir), [Normal(file)]);
    } else {
      PushRelative(cwd, p);
      RelativeInner(rootfs, tempDir, file);
      Associates(Components(cwd), Inner(rootfs), Inner(tempDir) + [Normal(file)]);
    }
  }

  lemma PushFileInner(dir: string, file: string)
    requires dir != "" && IsFileName(file)
    ensures Inner(Push(dir, file)) == Inner(dir) + [Normal(file)]
  {
    FileNameComponents(file);
    if dir[|dir| - 1] != '/' {
      InnerAtSlash(dir, file);
    } else {
      var front := dir[..|dir| - 1];
      assert dir == front + "/" && Push(dir, file) == front + "/" + file;
      InnerAtSlash(front, file);
      InnerAtSlash(front, "");
      EmptyInner();
      assert dir == front + "/" + "";
    }
  }

  lemma ConcatInner(r: string, t: string)
    requires IsAbsolute(t)
    ensures Inner(r + t) == Inner(r) + Inner(t)
  {
    var rest := t[1..];
    assert t == "" + "/" + rest && r + t == r + "/" + rest;
    InnerAtSlash(r, rest);
    InnerAtSlash("", rest);
    EmptyInner();
  }

  lemma RelativeInner(rootfs: string, tempDir: string, file: string)
    requires rootfs != "" && IsAbsolute(tempDir) && IsFileName(file)
    ensures Inner(Push(rootfs + tempDir, file)) == Inner(rootfs) + (Inner(tempDir) + [Normal(file)])
  {
    ConcatInner(rootfs, tempDir);
    PushFileInner(rootfs + tempDir, file);
    var a, b, c := Inner(rootfs), Inner(tempDir), [Normal(file)];
    assert (a + b) + c == a + (b + c);
  }

  lemma SuffixOfConcat(a: seq<Component>, b: seq<Component>, last: Component)
    ensures var whole := a + (b + [last]);
      whole[|whole| - 1] == last && IsSuffix(b, whole[..|whole| - 1])
  {
    var whole := a + (b + [last]);
    assert whole[..|whole| - 1] == a + b;
  }

  /** `gen_init`: for every rootfs, every absolute temp dir and every file name, the
      script is found in the guest under the temp dir, and its host path is the place of
      the guest's root followed by its guest path. */
  lemma InitPathRoundTrip(cwd: string, rootfs: string, tempDir: string, file: string)
    requires IsAbsolute(cwd) && IsAbsolute(tempDir) && IsFileName(file)
    ensures var host := HostInitPath(cwd, rootfs, tempDir, file);
      var r := GuestInitPath(tempDir, host);
      && r.InGuest?
      && Components(r.path) == Components(tempDir) + [Normal(file)]
      && Components(host) == GuestRoot(cwd, rootfs) + Components(r.path)[1..]
      && IsSuffix(Inner(rootfs) + Components(r.path)[1..], Components(host))
  {
    HostComponents(cwd, rootfs, tempDir, file);
    InnerIsTail(tempDir);
    InnerIsTail(rootfs);
    EmptyInner();
    var front := GuestRoot(cwd, rootfs);
    SuffixAfterRoot(front, Inner(rootfs), Inner(tempDir) + [Normal(file)]);
    StripAndReroot(front, tempDir, file, HostInitPath(cwd, rootfs, tempDir, file));
  }

  lemma SuffixAfterRoot(front: seq<Component>, mid: seq<Component>, tail: seq<Component>)
    requires IsSuffix(mid, front)
    ensures IsSuffix(mid + tail, front + tail)
  {
    assert front == front[..|front| - |mid|] + mid;
    assert front + tail == front[..|front| - |mid|] + (mid + tail);
  }

  /** `guest_init_path` on a path that ends in the temp dir and a name. */
  lemma StripAndReroot(above: seq<Component>, tempDir: string, file: string, hostInit: string)
    requires IsAbsolute(tempDir) && IsFileName(file)
    requires Components(hostInit) == above + (Inner(tempDir) + [Normal(file)])
    ensures var r := GuestInitPath(tempDir, hostInit);
      && r.InGuest?
      && Components(r.path) == Components(tempDir) + [Normal(file)]
      && Components(r.path)[1..] == Inner(tempDir) + [Normal(file)]
      && IsSuffix(Components(r.path)[1..], Components(hostInit))
  {
    RerootedComponents(tempDir, file);
    InnerIsTail(tempDir);
    assert Components(tempDir)[1..] == Inner(tempDir);
    var host, tail := Components(hostInit), Inner(tempDir) + [Normal(file)];
    SuffixOfConcat(above, Inner(tempDir), Normal(file));
    assert Rerooted(tempDir, host) == InGuest(Push(tempDir, file));
    SuffixAfterRoot(above, [], tail);
    assert [] + tail == tail;
  }

  lemma RerootedComponents(tempDir: string, file: string)
    requires IsAbsolute(tempDir) && IsFileName(file)
    ensures Components(Push(tempDir, file)) == Components(tempDir) + [Normal(file)]
    ensures Components(Push(tempDir, file))[1..] == Inner(tempDir) + [Normal(file)]
  {
    FileNameComponents(file);
    PushRelative(tempDir, file);
    InnerIsTail(tempDir);
    Associates([Root], Inner(tempDir), [Normal(file)]);
  }

  /** A path that ends in the temp dir and one more component. */
  ghost predicate EndsIn(host: seq<Component>, b: seq<Component>, last: Component) {
    exists above: seq<Component> :: host == above + (b + [last])
  }

  lemma EndsInIff(host: seq<Component>, b: seq<Component>, last: Component)
    ensures EndsIn(host, b, last) <==>
      host != [] && host[|host| - 1] == last && IsSuffix(b, host[..|host| - 1])
  {
    if above: seq<Component> :| host == above + (b + [last]) {
      SuffixOfConcat(above, b, last);
    }
    if host != [] && host[|host| - 1] == last && IsSuffix(b, host[..|host| - 1]) {
      var parent := host[..|host| - 1];
      assert host == parent[..|parent| - |b|] + (b + [last]);
    }
  }

  /** Conversely a host path is accepted exactly if it ends in the temp dir and a name,
      and panics exactly if it ends in the temp dir and a "." or "..". */
  lemma AcceptedIff(tempDir: string, hostInit: string)
    ensures GuestInitPath(tempDir, hostInit).InGuest? <==>
      IsAbsolute(tempDir) && exists f: string :: EndsIn(Components(hostInit), Inner(tempDir), Normal(f))
    ensures GuestInitPath(tempDir, hostInit).Panics? <==>
      IsAbsolute(tempDir) && (EndsIn(Components(hostInit), Inner(tempDir), Parent)
                              || EndsIn(Components(hostInit), Inner(tempDir), Cur))
  {
    var host := Components(hostInit);
    InnerIsTail(tempDir);
    EndsInIff(host, Inner(tempDir), Parent);
    EndsInIff(host, Inner(tempDir), Cur);
    forall f: string ensures EndsIn(host, Inner(tempDir), Normal(f)) <==>
      host != [] && host[|host| - 1] == Normal(f) && IsSuffix(Inner(tempDir), host[..|host| - 1])
    {
      EndsInIff(host, Inner(tempDir), Normal(f));
    }
    if IsAbsolute(tempDir) {
      assert Components(tempDir)[1..] == Inner(tempDir);
    }
  }

  /** Doubled and trailing slashes and inner dots make no difference. */
  lemma DotsDisappear(a: string, b: string)
    requires a != ""
    ensures Components(a + "/" + "/" + b) == Components(a + "/" + b)
    ensures Components(a + "/" + "." + "/" + b) == Components(a + "/" + b)
    ensures Components(a + "/" + b + "/") == Components(a + "/" + b)
  {
    ComponentsAtSlash(a, b);
    TrailingSlash(a);
    ComponentsAtSlash(a + "/", b);
    DotAddsNothing(a);
    ComponentsAtSlash(a + "/" + ".", b);
    TrailingSlash(a + "/" + b);
  }

  lemma DotAddsNothing(a: string)
    requires a != ""
    ensures Components(a + "/" + ".") == Components(a)
  {
    SplitWithoutSeparator(".", IsSlash);
    assert Body(["."]) == Body(["."][1..]);
    ComponentsAtSlash(a, ".");
  }

  /** For instance the script path "/tmp/.." panics. */
  lemma DotDotPanics()
    ensures GuestInitPath("/tmp", "/tmp/..").Panics?
  {
    var host, b := Components("/tmp/.."), Inner("/tmp");
    assert "/tmp/.." == "/tmp" + "/" + "..";
    ComponentsAtSlash("/tmp", "..");
    InnerIsTail("/tmp");
    SplitWithoutSeparator("..", IsSlash);
    assert Body([".."]) == [Parent] + Body([".."][1..]);
    assert host == [Root] + (b + [Parent]);
    assert EndsIn(host, b, Parent);
    AcceptedIff("/tmp", "/tmp/..");
  }
}
